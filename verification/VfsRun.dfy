/** Whole runs of file calls: counts are exact, objects go once, and open files keep their contents. */
module VfsRun {
  import opened Machine
  import opened Refs
  import opened RamTree
  import opened Ramfs
  import opened RamfsDir
  import opened VfsCalls
  import opened VfsOpen

  /** What ramfs_write_vn makes of a file's data: zeros up to the offset, the bytes, and the old rest. */
  function Overwrite(data: seq<byte>, off: nat, bytes: seq<byte>): (r: seq<byte>)
    ensures |r| == Max(|data|, off + |bytes|) && r[off..off + |bytes|] == bytes
    ensures forall k :: 0 <= k < |r| && !(off <= k < off + |bytes|) ==> r[k] == if k < |data| then data[k] else 0
  {
    var base := if off + |bytes| <= |data| then data else data + Zeros(off + |bytes| - |data|);
    Splice(base, off, bytes)
  }

  /** cap doubled until size fits, or size itself where doubling would not fit the word. */
  function Doubled(cap: nat, size: nat): (r: nat)
    requires 0 < cap
    ensures r >= size && (cap < U32 && size < U32 ==> r < U32) && (r == cap || r == size || r < 2 * size)
    decreases size - cap
  {
    if size <= cap then cap else if cap > (U32 - 1) / 2 then size else Doubled(2 * cap, size)
  }

  /** ramfs_ensure_capacity: the buffer's size once size bytes fit; it never shrinks. */
  function CapFor(cap: nat, size: nat): (r: nat)
    ensures size <= r && cap <= r && (cap < U32 && size < U32 ==> r < U32)
  {
    if size <= cap then cap else Doubled(if cap == 0 then 64 else cap, size)
  }

  /** The file's offset and its node's data and buffer change. */
  function Stored(s: State, f: nat, off: nat, data: seq<byte>, cap: nat): State
    requires f in s.files && NodeOf(s, f) in s.nodes
  {
    var n := NodeOf(s, f);
    s.(files := s.files[f := s.files[f].(off := off)], nodes := s.nodes[n := s.nodes[n].(data := data, cap := cap)])
  }

  /** vfs_write on a ramfs file. */
  function Write(s: State, f: nat, bytes: seq<byte>, mem: Memory): Out {
    var n := NodeOf(s, f);
    if f !in s.files || s.files[f].vn !in s.vnodes || n !in s.nodes then Out(s, Err(InvalidArgument))
    else if s.nodes[n].dir then Out(s, Err(IsADirectory))
    else if bytes == [] then Out(s, Ok(0))
    else if |bytes| > U32 - 1 - s.files[f].off then Out(s, Err(InvalidArgument))
    else
      var node, end := s.nodes[n], s.files[f].off + |bytes|;
      if node.cap < end && !mem(s.next) then Out(s, Err(OutOfMemory))
      else Out(Stored(s, f, end, Overwrite(node.data, s.files[f].off, bytes), CapFor(node.cap, end)), Ok(|bytes|))
  }

  /** The bytes vfs_read gives: from the offset on, as many as there are. */
  function ReadBytes(s: State, f: nat, len: nat): seq<byte> {
    var n := NodeOf(s, f);
    if f !in s.files || s.files[f].vn !in s.vnodes || n !in s.nodes || s.nodes[n].dir
        || s.files[f].off >= |s.nodes[n].data| then []
    else s.nodes[n].data[s.files[f].off..Min(|s.nodes[n].data|, s.files[f].off + len)]
  }

  /** vfs_read on a ramfs file. */
  function Read(s: State, f: nat, len: nat): Out {
    var n := NodeOf(s, f);
    if f !in s.files || s.files[f].vn !in s.vnodes || n !in s.nodes then Out(s, Err(InvalidArgument))
    else if s.nodes[n].dir then Out(s, Err(IsADirectory))
    else Out(Stored(s, f, s.files[f].off + |ReadBytes(s, f, len)|, s.nodes[n].data, s.nodes[n].cap),
        Ok(|ReadBytes(s, f, len)|))
  }

  lemma StoredInv(s: State, f: nat, off: nat, data: seq<byte>, cap: nat)
    requires Inv(s, 0, 0) && f in s.files && NodeOf(s, f) in s.nodes && |data| <= cap < U32
        && !s.nodes[NodeOf(s, f)].dir
    ensures Inv(Stored(s, f, off, data, cap), 0, 0)
  {
    hide FilesOk, VnodesOk, NodesOk;
    var s' := Stored(s, f, off, data, cap);
    StoredFiles(s, f, off, data, cap);
    StoredVnodes(s, f, off, data, cap);
    StoredNodes(s, f, off, data, cap);
  }

  lemma StoredFiles(s: State, f: nat, off: nat, data: seq<byte>, cap: nat)
    requires FilesOk(s, 0) && f in s.files && NodeOf(s, f) in s.nodes
    ensures FilesOk(Stored(s, f, off, data, cap), 0)
  {
    hide Holders;
    var s' := Stored(s, f, off, data, cap);
    forall g | g in s'.files ensures FileOk(s', g, 0) { assert FileOk(s, g, 0); HoldersSame(s, s', g); }
  }

  lemma StoredVnodes(s: State, f: nat, off: nat, data: seq<byte>, cap: nat)
    requires VnodesOk(s, 0) && f in s.files && NodeOf(s, f) in s.nodes
    ensures VnodesOk(Stored(s, f, off, data, cap), 0)
  {
    hide OpenSet;
    var s' := Stored(s, f, off, data, cap);
    forall v | v in s'.vnodes ensures VnodeOk(s', v, 0) { assert VnodeOk(s, v, 0);
          OpenSame(s.files, f, s'.files[f], v); }
  }

  lemma StoredNodes(s: State, f: nat, off: nat, data: seq<byte>, cap: nat)
    requires NodesOk(s) && f in s.files && NodeOf(s, f) in s.nodes && |data| <= cap < U32
        && !s.nodes[NodeOf(s, f)].dir
    ensures NodesOk(Stored(s, f, off, data, cap))
  {
    var s' := Stored(s, f, off, data, cap);
    forall n | n in s'.nodes ensures NodeOk(s', n) { assert NodeOk(s, n); }
  }

  lemma StoredGood(s: State, f: nat, off: nat, data: seq<byte>, cap: nat)
    requires Good(s) && f in s.files && NodeOf(s, f) in s.nodes && |data| <= cap < U32
        && !s.nodes[NodeOf(s, f)].dir
    ensures Good(Stored(s, f, off, data, cap)) && Kept(s, Stored(s, f, off, data, cap), {NodeOf(s, f)})
    ensures data == s.nodes[NodeOf(s, f)].data ==> Kept(s, Stored(s, f, off, data, cap), {})
  {
    hide Inv, Tree, Accounted;
    StoredInv(s, f, off, data, cap);
    TreeFramed(s.nodes, Stored(s, f, off, data, cap).nodes);
    AccountedSame(s, Stored(s, f, off, data, cap));
  }

  /** What was written is read back from where it was written, and the rest of the file is as before. */
  lemma WriteRead(s: State, f: nat, bytes: seq<byte>, mem: Memory)
    requires Write(s, f, bytes, mem).r.Ok?
    ensures var o := Write(s, f, bytes, mem);
            && o.r == Ok(|bytes|) && f in s.files && f in o.s.files && o.s.files[f].off == s.files[f].off + |bytes|
            && ReadBytes(o.s.(files := o.s.files[f := o.s.files[f].(off := s.files[f].off)]), f, |bytes|) == bytes
    ensures var o, n := Write(s, f, bytes, mem), NodeOf(s, f);
            && n in s.nodes && o.s.nodes.Keys == s.nodes.Keys
            && (forall m :: m in s.nodes && m != n ==> o.s.nodes[m] == s.nodes[m])
            && o.s.nodes[n] == s.nodes[n].(data := o.s.nodes[n].data, cap := o.s.nodes[n].cap)
                && o.s.(files := s.files, nodes := s.nodes) == s
            && (forall g :: g in s.files && g != f ==> g in o.s.files && o.s.files[g] == s.files[g])
            && (bytes == [] ==> o.s.nodes[n].data == s.nodes[n].data)
    ensures var now, was, off := Write(s, f, bytes, mem).s.nodes[NodeOf(s, f)].data, s.nodes[NodeOf(s, f)].data,
        s.files[f].off;
            bytes != [] ==>
              && |now| == Max(|was|, off + |bytes|) && now[off..off + |bytes|] == bytes
              && forall k :: 0 <= k < |now| && !(off <= k < off + |bytes|) ==> now[k] == if k < |was| then was[k] else 0
  {
    hide Overwrite;
  }

  /** A file whose data has len bytes from the offset on. */
  predicate Inside(s: State, f: nat, len: nat)
    requires f in s.files
  {
    var n := NodeOf(s, f);
    n in s.nodes && !s.nodes[n].dir && s.files[f].off + len <= |s.nodes[n].data|
  }

  /** The data lies in the buffer. */
  lemma Buffered(s: State, n: nat)
    requires Good(s) && n in s.nodes
    ensures |s.nodes[n].data| <= s.nodes[n].cap < U32 && (s.nodes[n].dir ==> s.nodes[n].data == [])
  {
    hide Tree, Accounted, FilesOk, VnodesOk, OwnNodes, Shape;
    assert NodeOk(s, n);
  }

  /** A write fails exactly on no file, on a directory, past the end of 32 bits, or when the buffer must grow and
      there is no memory; so one that stays inside the file's size never fails for memory. */
  lemma WriteExact(s: State, f: nat, bytes: seq<byte>, mem: Memory)
    requires Good(s)
    ensures var o := Write(s, f, bytes, mem);
            o.r == if f !in s.files then Err(InvalidArgument)
                   else if NodeOf(s, f) in s.nodes && s.nodes[NodeOf(s, f)].dir then Err(IsADirectory)
                   else if bytes != [] && s.files[f].off + |bytes| >= U32 then Err(InvalidArgument)
                   else if bytes != [] && s.nodes[NodeOf(s, f)].cap < s.files[f].off + |bytes| && !mem(s.next)
                   then Err(OutOfMemory)
                   else Ok(|bytes|)
    ensures Write(s, f, bytes, mem).r.Err? ==> Write(s, f, bytes, mem).s == s
    ensures f in s.files && Inside(s, f, |bytes|) ==> Write(s, f, bytes, mem).r == Ok(|bytes|)
  {
    hide Good, Overwrite, Stored;
    if f in s.files { Alive(s, f); Buffered(s, NodeOf(s, f)); }
  }

  /** A read gives the bytes from the offset on, as many as there are up to len, and moves the offset past them. */
  lemma ReadIs(s: State, f: nat, len: nat)
    requires Good(s)
    ensures var o := Read(s, f, len);
            o.r == if f !in s.files then Err(InvalidArgument)
                   else if NodeOf(s, f) in s.nodes && s.nodes[NodeOf(s, f)].dir then Err(IsADirectory)
                   else Ok(|ReadBytes(s, f, len)|)
    ensures Read(s, f, len).r.Err? ==> Read(s, f, len).s == s
    ensures Read(s, f, len).r.Ok? ==>
              var data, off, got, s' := s.nodes[NodeOf(s, f)].data, s.files[f].off, ReadBytes(s, f, len),
                  Read(s, f, len).s;
              && |got| == (if off < |data| then Min(len, |data| - off) else 0)
              && (forall k :: 0 <= k < |got| ==> got[k] == data[off + k])
              && s' == s.(files := s.files[f := s.files[f].(off := off + |got|)])
  {
    hide Good;
    if f in s.files {
      Alive(s, f);
      var n := NodeOf(s, f);
      assert s.nodes[n := s.nodes[n].(data := s.nodes[n].data, cap := s.nodes[n].cap)] == s.nodes;
    }
  }

  /** An unlink by path takes the last name out of its directory; the node goes unless a file has it open. It
      succeeds exactly on a name for a file or an empty directory. */
  lemma UnlinkPathIs(s: State, path: seq<string>, mem: Memory) returns (d: nat, n: nat)
    requires Good(s)
    ensures var o := UnlinkPath(s, path, mem);
          Good(o.s) && Kept(s, o.s, {}) && o.s.fds == s.fds && o.s.handles == s.handles && o.s.files == s.files
    ensures var o := UnlinkPath(s, path, mem); o.r.Ok? ==>
              && path != [] && Leads(s.nodes, ROOT, Front(path), d) && Has(s.nodes, d, LastName(path), n)
              && (forall e, x, c :: Has(o.s.nodes, e, x, c) <==> Has(s.nodes, e, x, c) && !(e == d && c == n))
              && (IsOpen(s, n) <==> n in o.s.nodes)
    ensures UnlinkPath(s, path, mem).r.Ok? ==> Removable(s.nodes, path)
    ensures Root(s) != 0 && Plenty(mem, path) && Removable(s.nodes, path) ==> UnlinkPath(s, path, mem).r.Ok?
  {
    hide Good, Kept, SameTree, Leads, Unlink, ParentPath, Has, Removable, IsOpen, Plenty;
    d, n := 0, 0;
    if path == [] {
      StandingIs(s);
      NoParent(s, mem);
      if Removable(s.nodes, path) { RemovableFront(s.nodes, path); }
    } else {
      var p := ParentPath(s, path, mem);
      ParentPathGood(s, path, mem);
      d := ParentPathIs(s, path, mem);
      if p.r.Err? {
        if Removable(s.nodes, path) { RemovableFront(s.nodes, path); }
      } else {
        var o := Unlink(p.s, p.r.value, LastName(path));
        n := UnlinkIs(p.s, p.r.value, LastName(path));
        SameRemovable(s, p.s, path, d);
        Back(s, p.s, Front(path), d, LastName(path), n);
        if o.r.Ok? { KeptTwice(s, p.s, o.s); }
      }
    }
  }

  lemma RemovableFront(nodes: Nodes, path: seq<string>)
    requires Removable(nodes, path)
    ensures path != [] && LastName(path) !in {"", ".", ".."} && exists e :: Leads(nodes, ROOT, Front(path), e)
  {
    hide Leads, Has;
  }

  /** Filled caches make no difference to what can be removed. */
  lemma SameRemovable(s: State, t: State, path: seq<string>, d: nat)
    requires Good(s) && SameTree(s.nodes, t.nodes) && path != [] && Leads(s.nodes, ROOT, Front(path), d)
    ensures Removable(s.nodes, path) <==>
          LastName(path) !in {"", ".", ".."} && exists n :: Has(t.nodes, d, LastName(path), n) && t.nodes[n].kids == []
  {
    hide Leads, Tree, Inv, Accounted, Issued, Removable;
    RemovableIs(s.nodes, path, d);
    forall n ensures Has(s.nodes, d, LastName(path), n) <==>
          Has(t.nodes, d, LastName(path), n) { HasSame(s.nodes, t.nodes, d, LastName(path), n); }
  }

  /** Names and open files are the same before and after the caches were filled. */
  lemma Back(s: State, t: State, front: seq<string>, d: nat, leaf: string, n: nat)
    requires Good(s) && Kept(s, t, {}) && Good(t) && SameTree(s.nodes, t.nodes) && t.files == s.files
        && Leads(t.nodes, ROOT, front, d)
    ensures Leads(s.nodes, ROOT, front, d) && (forall e, x, c ::
          Has(s.nodes, e, x, c) <==> Has(t.nodes, e, x, c)) && (IsOpen(s, n) <==> IsOpen(t, n))
  {
    hide Good, SameTree, Leads, Has;
    LeadsSame(s.nodes, t.nodes, ROOT, front, d);
    forall e, x, c ensures Has(s.nodes, e, x, c) <==> Has(t.nodes, e, x, c) { HasSame(s.nodes, t.nodes, e, x, c); }
    if IsOpen(s, n) { StillOpen(s, t, n); }
    if IsOpen(t, n) { WasOpen(s, t, n); }
  }

  lemma StillOpen(s: State, t: State, n: nat)
    requires Good(s) && Good(t) && Kept(s, t, {}) && t.files == s.files && IsOpen(s, n)
    ensures IsOpen(t, n)
  {
    hide Good, RootsKept;
    var f :| f in s.files && s.files[f].vn in s.vnodes && s.vnodes[s.files[f].vn].node == n;
    Alive(s, f);
    Alive(t, f);
    assert f in t.files && t.files[f].vn in t.vnodes && t.vnodes[t.files[f].vn].node == n;
  }

  lemma WasOpen(s: State, t: State, n: nat)
    requires Good(s) && Kept(s, t, {}) && t.files == s.files && IsOpen(t, n)
    ensures IsOpen(s, n)
  {
    hide Good, RootsKept;
    var f :| f in t.files && t.files[f].vn in t.vnodes && t.vnodes[t.files[f].vn].node == n;
    Alive(s, f);
    assert f in s.files && s.files[f].vn in s.vnodes && s.vnodes[s.files[f].vn].node == n;
  }

  /** An open file has its vnode and its node. */
  lemma Alive(s: State, f: nat)
    requires Good(s) && f in s.files
    ensures s.files[f].vn in s.vnodes && s.files[f].vn < s.next && NodeOf(s, f) in s.nodes && f < s.next
        && NodeOf(s, f) < s.next
  {
    hide Holders, OpenSet, NodesOk, Tree, Accounted;
    assert FileOk(s, f, 0) && VnodeOk(s, s.files[f].vn, 0);
  }

  datatype Op =
    | OpOpen(pid: Pid, path: seq<string>, create: bool)
    | OpOpenKernel(path: seq<string>, create: bool)
    | OpCloseKernel(handle: nat)
    | OpMkdir(path: seq<string>)
    | OpUnlink(path: seq<string>)
    | OpClose(pid: Pid, fd: int)
    | OpDup(pid: Pid, fd: int)
    | OpDup2(pid: Pid, oldfd: int, newfd: int)
    | OpReap(pid: Pid)
    | OpWrite(pid: Pid, fd: int, bytes: seq<byte>)
    | OpRead(pid: Pid, fd: int, len: nat)

  /** A call and the memory it is granted. */
  datatype Call = Call(op: Op, mem: Memory)

  function Step(s: State, c: Call): Out
    requires Good(s)
  {
    GoodSized(s);
    match c.op
    case OpOpen(p, path, create) => Open(s, p, path, create, c.mem)
    case OpOpenKernel(path, create) => OpenFile(s, path, create, c.mem)
    case OpCloseKernel(h) => Out(CloseHandle(s, h), Ok(0))
    case OpMkdir(path) => MakePath(s, path, true, c.mem)
    case OpUnlink(path) => UnlinkPath(s, path, c.mem)
    case OpClose(p, fd) => FdClose(s, p, fd)
    case OpDup(p, fd) => Dup(s, p, fd)
    case OpDup2(p, a, b) => Dup2(s, p, a, b)
    case OpReap(p) => Out(CloseFrom(s, p, 0), Ok(p))
    case OpWrite(p, fd, bytes) =>
          if FdGet(s, p, fd) == 0 then Out(s, Err(BadFileDescriptor)) else Write(s, FdGet(s, p, fd), bytes, c.mem)
    case OpRead(p, fd, len) =>
          if FdGet(s, p, fd) == 0 then Out(s, Err(BadFileDescriptor)) else Read(s, FdGet(s, p, fd), len)
  }

  /** The node a call may change the data of. */
  function Touched(s: State, c: Call): set<nat>
    requires Sized(s)
  {
    if c.op.OpWrite? then {NodeOf(s, FdGet(s, c.op.pid, c.op.fd))} else {}
  }

  lemma PathStep(s: State, c: Call)
    requires Good(s) && (c.op.OpOpen? || c.op.OpOpenKernel? || c.op.OpMkdir? || c.op.OpUnlink?)
    ensures Good(Step(s, c).s) && Kept(s, Step(s, c).s, {})
  {
    hide Good, Kept, Leads, Linked, Open, OpenFile, MakePath, UnlinkPath, Has, Makeable, Removable, Plenty;
    match c.op
    case OpOpen(p, path, create) => var n := VfsOpen.OpenIs(s, p, path, create, c.mem);
    case OpOpenKernel(path, create) => var n := OpenFileIs(s, path, create, c.mem);
    case OpMkdir(path) => var n := MakePathIs(s, path, true, c.mem);
    case OpUnlink(path) => var d, n := UnlinkPathIs(s, path, c.mem);
    case _ =>
  }

  lemma HandleStep(s: State, h: nat)
    requires Good(s)
    ensures Calm(s, CloseHandle(s, h))
  {
    hide Good, Calm, UnrefFile, Holders, Inv, Standing;
    if h in s.handles { CloseHandleIs(s, h); } else { StandingIs(s); }
  }

  lemma FdStep(s: State, c: Call)
    requires Good(s) && (c.op.OpClose? || c.op.OpDup? || c.op.OpDup2? || c.op.OpReap? || c.op.OpCloseKernel?)
    ensures Calm(s, Step(s, c).s)
  {
    hide Good, Calm, FdClose, Dup, Dup2, CloseHandle, CloseFrom, Cleared, Holders;
    match c.op
    case OpClose(p, fd) => FdCloseIs(s, p, fd);
    case OpDup(p, fd) => DupIs(s, p, fd);
    case OpDup2(p, a, b) => Dup2Is(s, p, a, b);
    case OpReap(p) => CloseFromIs(s, p, 0);
    case OpCloseKernel(h) => HandleStep(s, h);
    case _ =>
  }

  lemma KeptMore(s: State, s': State, w: set<nat>)
    requires Kept(s, s', {})
    ensures Kept(s, s', w)
  {
  }

  lemma WriteStep(s: State, f: nat, bytes: seq<byte>, mem: Memory)
    requires Good(s)
    ensures Good(Write(s, f, bytes, mem).s) && Kept(s, Write(s, f, bytes, mem).s, {NodeOf(s, f)})
  {
    hide Good, Kept, Calm, Inv, Standing, Stored, Overwrite, NodeOf;
    StandingIs(s);
    KeptMore(s, s, {NodeOf(s, f)});
    if f in s.files && NodeOf(s, f) in s.nodes && !s.nodes[NodeOf(s, f)].dir {
      Buffered(s, NodeOf(s, f));
      if s.files[f].off + |bytes| >= U32 { return; }
      StoredGood(s, f, s.files[f].off + |bytes|, Overwrite(s.nodes[NodeOf(s, f)].data, s.files[f].off, bytes),
          CapFor(s.nodes[NodeOf(s, f)].cap, s.files[f].off + |bytes|));
    }
  }

  lemma ReadStep(s: State, f: nat, len: nat)
    requires Good(s)
    ensures Good(Read(s, f, len).s) && Kept(s, Read(s, f, len).s, {})
  {
    hide Good, Kept, Calm, Inv, Standing, Stored, ReadBytes, NodeOf;
    StandingIs(s);
    if f in s.files && NodeOf(s, f) in s.nodes && !s.nodes[NodeOf(s, f)].dir {
      Buffered(s, NodeOf(s, f));
      StoredGood(s, f, s.files[f].off + |ReadBytes(s, f, len)|, s.nodes[NodeOf(s, f)].data,
          s.nodes[NodeOf(s, f)].cap);
    }
  }

  lemma DataStep(s: State, c: Call)
    requires Good(s) && (c.op.OpWrite? || c.op.OpRead?)
    ensures Sized(s) && Good(Step(s, c).s) && Kept(s, Step(s, c).s, Touched(s, c))
  {
    hide Good, Kept, Calm, Inv, Standing, Write, Read, NodeOf, FdGet;
    StandingIs(s);
    KeptMore(s, s, Touched(s, c));
    match c.op
    case OpWrite(p, fd, bytes) => WriteStep(s, FdGet(s, p, fd), bytes, c.mem);
    case OpRead(p, fd, len) => ReadStep(s, FdGet(s, p, fd), len);
    case _ =>
  }

  /** Every call keeps the books, the tree and the contents of what it does not write. */
  lemma StepGood(s: State, c: Call)
    requires Good(s)
    ensures Sized(s) && Good(Step(s, c).s) && Kept(s, Step(s, c).s, Touched(s, c))
  {
    hide Good, Kept, Step;
    GoodSized(s);
    match c.op
    case OpOpen(_, _, _) => PathStep(s, c);
    case OpOpenKernel(_, _) => PathStep(s, c);
    case OpMkdir(_) => PathStep(s, c);
    case OpUnlink(_) => PathStep(s, c);
    case OpWrite(_, _, _) => DataStep(s, c);
    case OpRead(_, _, _) => DataStep(s, c);
    case _ => FdStep(s, c);
  }

  ghost function Run(s: State, calls: seq<Call>): State
    requires Good(s)
    decreases |calls|
  {
    if calls == [] then s
    else
      StepGood(s, calls[0]);
      Run(Step(s, calls[0]).s, calls[1..])
  }

  /** The nodes written during a run. */
  ghost function Written(s: State, calls: seq<Call>): set<nat>
    requires Good(s)
    decreases |calls|
  {
    if calls == [] then {}
    else
      StepGood(s, calls[0]);
      Touched(s, calls[0]) + Written(Step(s, calls[0]).s, calls[1..])
  }

  lemma {:induction false} RunGood(s: State, calls: seq<Call>)
    requires Good(s)
    ensures Good(Run(s, calls)) && Kept(s, Run(s, calls), Written(s, calls))
    decreases |calls|
  {
    hide Good, Kept, Step, Touched;
    if calls == [] {
      StandingIs(s);
    } else {
      var t := Step(s, calls[0]).s;
      StepGood(s, calls[0]);
      RunGood(t, calls[1..]);
      KeptTrans(s, t, Run(s, calls), Touched(s, calls[0]), Written(t, calls[1..]));
    }
  }

  /** A mounted, empty ramfs and empty descriptor tables. */
  function Start(): State {
    State(seq(TABLES * FD_MAX, _ => 0), map[], map[], map[2 := Vnode(ROOT, 1)],
        map[ROOT := Node("", true, ROOT, [], 2, [], 0)], 3, [])
  }

  lemma StartGood()
    ensures Good(Start())
  {
    hide Tree;
    var s := Start();
    assert OpenSet(s.files, 2) == {};
    assert NodeOk(s, ROOT) && VnodeOk(s, 2, 0);
    StartTree();
  }

  lemma StartTree()
    ensures Tree(Start().nodes)
  {
    var nodes := Start().nodes;
    assert DirOk(nodes, ROOT) && ParentOk(nodes, ROOT);
  }

  /** What the books say in every reachable state. */
  ghost predicate Books(s: State) {
    && (forall f :: f in s.files ==> s.files[f].refs == Holders(s, f) > 0)
    && (forall v :: v in s.vnodes ==> s.vnodes[v].refs == |OpenSet(s.files, v)| + One(Linked(s, s.vnodes[v].node)) > 0)
    && (forall n :: n in s.nodes ==> Linked(s, n) || IsOpen(s, n))
    && (forall f :: f in s.files ==> s.files[f].vn in s.vnodes && s.vnodes[s.files[f].vn].node in s.nodes)
  }

  lemma LinkedIsCached(s: State, v: nat)
    requires Inv(s, 0, 0) && v in s.vnodes
    ensures Cached(s, v) <==> Linked(s, s.vnodes[v].node)
  {
    hide FilesOk, OpenSet, OwnNodes;
    assert VnodeOk(s, v, 0);
    assert NodeOk(s, s.vnodes[v].node);
  }

  lemma GoodBooks(s: State)
    requires Good(s)
    ensures Books(s)
  {
    hide Tree, Holders, Issued, OpenSet, NodesOk, Accounted;
    forall f | f in s.files ensures s.files[f].refs == Holders(s, f) > 0 && s.files[f].vn in s.vnodes
        && s.vnodes[s.files[f].vn].node in s.nodes {
      assert FileOk(s, f, 0) && VnodeOk(s, s.files[f].vn, 0);
    }
    forall v | v in s.vnodes ensures s.vnodes[v].refs == |OpenSet(s.files, v)| + One(Linked(s, s.vnodes[v].node)) > 0 {
      assert VnodeOk(s, v, 0);
      LinkedIsCached(s, v);
    }
    forall n | n in s.nodes ensures Linked(s, n) || IsOpen(s, n) { LinkedOrOpen(s, n); }
  }

  lemma LinkedOrOpen(s: State, n: nat)
    requires Inv(s, 0, 0) && n in s.nodes
    ensures Linked(s, n) || IsOpen(s, n)
  {
    hide FilesOk;
    assert NodeOk(s, n);
    if !Linked(s, n) {
      var v :| v in s.vnodes && s.vnodes[v].node == n;
      assert VnodeOk(s, v, 0);
      LinkedIsCached(s, v);
      OpenFrom(s.files, v);
      var f :| f in s.files && s.files[f].vn == v;
      assert s.files[f].vn in s.vnodes;
    }
  }

  lemma OpenFrom(files: map<nat, File>, v: nat)
    requires |OpenSet(files, v)| > 0
    ensures exists f :: f in files && files[f].vn == v
  {
    var f :| f in OpenSet(files, v);
    assert f in files && files[f].vn == v;
  }

  /** In every run from a fresh mount all counts are exact: nothing is freed early, nothing unheld stays. */
  lemma RunBooks(calls: seq<Call>)
    ensures Good(Start()) && Books(Run(Start(), calls))
  {
    hide Good, Books, Run, Start;
    StartGood();
    RunGood(Start(), calls);
    GoodBooks(Run(Start(), calls));
  }

  /** How often an object was freed. */
  ghost function Times(l: seq<nat>, x: nat): nat { if l == [] then 0 else One(l[0] == x) + Times(l[1..], x) }

  lemma {:induction false} TimesOnce(l: seq<nat>, x: nat)
    requires Once(l)
    ensures Times(l, x) == One(x in l)
    decreases |l|
  {
    if l != [] {
      var rest := l[1..];
      assert forall i :: 0 <= i < |rest| ==> rest[i] == l[i + 1];
      TimesOnce(rest, x);
    }
  }

  /**
   In every run the frees of all calls, one after the other, free no object twice: what was made is live and was
   not freed, or was freed exactly once and is no longer there.
   */
  lemma FreedOnce(s: State, calls: seq<Call>, x: nat)
    requires Good(s) && 0 < x < Run(s, calls).next
    ensures var t := Run(s, calls);
            && s.freed <= t.freed && Times(t.freed, x) == One(!Live(t, x))
            && (x < s.next && !Live(s, x) ==> !Live(t, x) && x in s.freed)
            && (x < s.next && Live(s, x) && !Live(t, x) ==> x !in s.freed && x in t.freed[|s.freed|..])
  {
    hide Good, Run;
    var t := Run(s, calls);
    RunGood(s, calls);
    GoodAccount(s);
    GoodAccount(t);
    TimesOnce(t.freed, x);
    assert t.freed == s.freed + t.freed[|s.freed|..];
  }

  lemma GoodAccount(s: State)
    requires Good(s)
    ensures Accounted(s)
  {
    hide Inv, Tree, Issued, Accounted;
  }

  /** As long as a file is held it keeps its node and its data, linked or not, unless written. */
  lemma OpenKeepsData(s: State, calls: seq<Call>, f: nat)
    requires Good(s) && f in s.files && f in Run(s, calls).files
    ensures var t := Run(s, calls); var n := NodeOf(s, f);
            && NodeOf(t, f) == n && n in s.nodes && n in t.nodes
                && (n !in Written(s, calls) ==> t.nodes[n].data == s.nodes[n].data)
  {
    hide Good, Run, Written;
    RunGood(s, calls);
    Alive(s, f);
    Alive(Run(s, calls), f);
  }

  /** The mount's root stays the only one, so that unmounting after any run releases the whole tree. */
  lemma OneRoot(calls: seq<Call>, n: nat)
    requires Good(Start()) && n in Run(Start(), calls).nodes && Run(Start(), calls).nodes[n].parent == n
    ensures n == ROOT
  {
    hide Good, Run, Lasting;
    StartGood();
    RunGood(Start(), calls);
  }
}
