/** The descriptor table, files, vnodes and ramfs nodes as the kernel updates them, call by call. */
module Vfs {
  import opened Machine
  import opened Refs
  import opened RamTree
  import opened Ramfs
  import opened RamfsDir
  import C = VfsCalls
  import O = VfsOpen
  import R = VfsRun
  import T = RamRelease

  lemma LinkAdds(all: map<nat, Node>, d: nat, n: nat, node: Node)
    requires d in all
    ensures n in Link(all, d, n, node)
  {
  }

  class Files {
    const fds: array<nat>
    var handles: map<nat, nat>
    var files: map<nat, File>
    var vnodes: map<nat, Vnode>
    var nodes: map<nat, Node>
    var next: nat
    var freed: seq<nat>

    ghost function Now(): State
      reads this, fds
    {
      State(fds[..], handles, files, vnodes, nodes, next, freed)
    }

    constructor ()
      ensures fresh(fds) && fds.Length == TABLES * FD_MAX && Now() == R.Start()
    {
      fds := new nat[TABLES * FD_MAX](_ => 0);
      handles, files := map[], map[];
      vnodes, nodes, next := map[2 := Vnode(ROOT, 1)], map[ROOT := Node("", true, ROOT, [], 2, [], 0)], 3;
      freed := [];
      new;
      assert fds[..] == seq(TABLES * FD_MAX, _ => 0);
    }

    /** vnode_unref, with ramfs_destroy_vnode at zero. */
    method VnodeUnref(v: nat)
      requires CanDropVnode(Now(), v)
      modifies this
      ensures Now() == UnrefVnode(old(Now()), v)
    {
      var vn := vnodes[v];
      vnodes := vnodes[v := vn.(refs := vn.refs - 1)];
      if vnodes[v].refs == 0 {
        nodes := nodes - {vn.node};
        vnodes := vnodes - {v};
        freed := freed + [vn.node, v];
        assert old(vnodes)[v := vn.(refs := 0)] - {v} == old(vnodes) - {v};
      }
    }

    /** file_unref and vfs_close. */
    method FileUnref(f: nat)
      requires CanDrop(Now(), f)
      modifies this
      ensures Now() == UnrefFile(old(Now()), f)
    {
      if files[f].refs > 1 {
        files := files[f := files[f].(refs := files[f].refs - 1)];
      } else {
        var v := files[f].vn;
        files := files - {f};
        assert Now() == old(Now()).(files := old(files) - {f});
        VnodeUnref(v);
        freed := freed + [f];
      }
    }

    /** fd_find_free. */
    method FdFindFree(p: Pid) returns (fd: nat)
      requires C.Sized(Now())
      ensures fd == C.FindFree(Now(), p, FD_FIRST)
    {
      fd := FD_FIRST;
      while fd < FD_MAX && fds[C.Slot(p, fd)] != 0
        invariant FD_FIRST <= fd <= FD_MAX && C.FindFree(Now(), p, FD_FIRST) == C.FindFree(Now(), p, fd)
      {
        fd := fd + 1;
      }
    }

    /** The reference and the slot that fd_alloc and fd_alloc_at end with. */
    method Install(i: nat, f: nat)
      requires i < fds.Length && f in files
      modifies this, fds
      ensures Now() == PutFd(old(Now()), i, f)
    {
      files := files[f := files[f].(refs := files[f].refs + 1)];
      fds[i] := f;
      assert fds[..] == old(fds[..])[i := f];
    }

    /** The used slot is emptied before its file is let go. */
    method Empty(i: nat)
      requires Good(Now()) && i < fds.Length && fds[i] != 0
      modifies this, fds
      ensures Now() == C.Emptied(old(Now()), i)
    {
      hide Good, UnrefFile;
      C.SlotDroppable(Now(), i);
      var f := fds[i];
      fds[i] := 0;
      assert fds[..] == old(fds[..])[i := 0];
      FileUnref(f);
    }

    method FdAlloc(p: Pid, f: nat) returns (r: Result<nat>)
      requires C.Sized(Now())
      modifies this, fds
      ensures Out(Now(), r) == C.FdAlloc(old(Now()), p, f)
    {
      if f !in files { return Err(InvalidArgument); }
      var fd := FdFindFree(p);
      if fd == FD_MAX { return Err(TooManyOpenFiles); }
      Install(C.Slot(p, fd), f);
      r := Ok(fd);
    }

    method FdClose(p: Pid, fd: int) returns (r: Result<nat>)
      requires Good(Now())
      modifies this, fds
      ensures Out(Now(), r) == C.FdClose(old(Now()), p, fd)
    {
      hide Good, C.Emptied;
      C.GoodSized(Now());
      if !(0 <= fd < FD_MAX) || fds[C.Slot(p, fd)] == 0 { return Err(BadFileDescriptor); }
      Empty(C.Slot(p, fd));
      r := Ok(0);
    }

    method FdAllocAt(p: Pid, fd: int, f: nat) returns (r: Result<nat>)
      requires Good(Now())
      modifies this, fds
      ensures Out(Now(), r) == C.FdAllocAt(old(Now()), p, fd, f)
    {
      hide Good, C.Emptied, C.Calm, Holders;
      C.GoodSized(Now());
      if f !in files || !(0 <= fd < FD_MAX) { return Err(InvalidArgument); }
      var i := C.Slot(p, fd);
      if fds[i] == f { return Ok(fd); }
      if fds[i] != 0 {
        C.EmptiedIs(Now(), i);
        Empty(i);
      }
      Install(i, f);
      r := Ok(fd);
    }

    method FdDup(p: Pid, fd: int) returns (r: Result<nat>)
      requires C.Sized(Now())
      modifies this, fds
      ensures Out(Now(), r) == C.Dup(old(Now()), p, fd)
    {
      if !(0 <= fd < FD_MAX) || fds[C.Slot(p, fd)] == 0 { return Err(BadFileDescriptor); }
      r := FdAlloc(p, fds[C.Slot(p, fd)]);
    }

    method FdDup2(p: Pid, oldfd: int, newfd: int) returns (r: Result<nat>)
      requires Good(Now())
      modifies this, fds
      ensures Out(Now(), r) == C.Dup2(old(Now()), p, oldfd, newfd)
    {
      hide Good, C.FdAllocAt;
      C.GoodSized(Now());
      if !(0 <= newfd < FD_MAX) { return Err(InvalidArgument); }
      if !(0 <= oldfd < FD_MAX) || fds[C.Slot(p, oldfd)] == 0 { return Err(BadFileDescriptor); }
      if oldfd == newfd { return Ok(newfd); }
      r := FdAllocAt(p, newfd, fds[C.Slot(p, oldfd)]);
    }

    /** The end of waitpid: the reaped process's descriptors are closed, one after the other. */
    method CloseAll(p: Pid)
      requires Good(Now())
      modifies this, fds
      ensures Now() == C.CloseFrom(old(Now()), p, 0)
    {
      hide Good, C.Emptied, C.Calm, Holders;
      var fd := 0;
      while fd < FD_MAX
        invariant fd <= FD_MAX && Good(Now()) && C.CloseFrom(Now(), p, fd) == C.CloseFrom(old(Now()), p, 0)
      {
        C.GoodSized(Now());
        if fds[C.Slot(p, fd)] != 0 {
          C.EmptiedIs(Now(), C.Slot(p, fd));
          Empty(C.Slot(p, fd));
        }
        fd := fd + 1;
      }
    }

    /** ramfs_node_vnode. */
    method VnodeOf(n: nat, mem: Memory) returns (r: Result<nat>)
      modifies this
      ensures Out(Now(), r) == NodeVnode(old(Now()), n, mem)
    {
      if n !in nodes { return Err(OutOfMemory); }
      if nodes[n].cache == 0 {
        if !mem(next) { return Err(OutOfMemory); }
        vnodes := vnodes[next := Vnode(n, 1)];
        nodes := nodes[n := nodes[n].(cache := next)];
        next := next + 1;
      }
      r := Ok(nodes[n].cache);
    }

    /** ramfs_find_child: the place of the first child with the name. */
    method FindChild(d: nat, name: string) returns (i: nat)
      requires d in nodes
      ensures i == FirstNamed(nodes, nodes[d].kids, name)
    {
      var kids := nodes[d].kids;
      i := 0;
      while i < |kids| && !(kids[i] in nodes && nodes[kids[i]].name == name)
        invariant i <= |kids| && FirstNamed(nodes, kids, name) == i + FirstNamed(nodes, kids[i..], name)
      {
        assert kids[i..][1..] == kids[i + 1..];
        i := i + 1;
      }
    }

    method LookupName(dv: nat, name: string, mem: Memory) returns (r: Result<nat>)
      modifies this
      ensures Out(Now(), r) == Lookup(old(Now()), dv, name, mem)
    {
      if dv !in vnodes || vnodes[dv].node !in nodes { return Err(InvalidArgument); }
      var d := vnodes[dv].node;
      if !nodes[d].dir { return Err(NotDirectory); }
      if name == "." { return Ok(dv); }
      if name == ".." {
        r := VnodeOf(if nodes[d].parent != 0 then nodes[d].parent else d, mem);
        return;
      }
      var i := FindChild(d, name);
      if i == |nodes[d].kids| { return Err(NotFound); }
      r := VnodeOf(nodes[d].kids[i], mem);
    }

    /** vfs_lookup's loop. */
    method WalkPath(path: seq<string>, mem: Memory) returns (r: Result<nat>)
      modifies this
      ensures Out(Now(), r) == O.LookupPath(old(Now()), path, mem)
    {
      hide Lookup;
      if ROOT !in nodes || nodes[ROOT].cache == 0 { return Err(NotFound); }
      var cur: nat := nodes[ROOT].cache;
      var i := 0;
      while i < |path|
        invariant i <= |path|
        invariant O.LookupPath(old(Now()), path, mem) == Walk(Now(), cur, path[i..], mem)
      {
        if |path[i]| > NAME_MAX { return Err(NameTooLong); }
        r := LookupName(cur, path[i], mem);
        if r.Err? { return; }
        cur := r.value;
        assert path[i..][1..] == path[i + 1..];
        i := i + 1;
      }
      r := Ok(cur);
    }

    method CreateName(dv: nat, name: string, dir: bool, mem: Memory) returns (r: Result<nat>)
      modifies this
      ensures Out(Now(), r) == Create(old(Now()), dv, name, dir, mem)
    {
      hide Link, AddVnode;
      if dv !in vnodes || vnodes[dv].node !in nodes { return Err(InvalidArgument); }
      var d := vnodes[dv].node;
      if !nodes[d].dir { return Err(NotDirectory); }
      if name == "" || '/' in name || name == "." || name == ".." { return Err(InvalidArgument); }
      var i := FindChild(d, name);
      if i < |nodes[d].kids| { return Err(AlreadyExists); }
      var n := next;
      if !mem(n) || !mem(n + 1) { return Err(OutOfMemory); }
      nodes := Link(nodes, d, n, Node(name, dir, d, [], 0, [], 0));
      next := n + 1;
      assert Now() == LinkNew(old(Now()), d, name, dir);
      assert n in nodes by { LinkAdds(old(nodes), d, n, Node(name, dir, d, [], 0, [], 0)); }
      r := AddVnodeTo(n);
    }

    /** A vnode made for a node that has none. */
    method AddVnodeTo(n: nat) returns (r: Result<nat>)
      requires n in nodes
      modifies this
      ensures Now() == AddVnode(old(Now()), n) && r == Ok(old(next))
    {
      vnodes := vnodes[next := Vnode(n, 1)];
      nodes := nodes[n := nodes[n].(cache := next)];
      r := Ok(next);
      next := next + 1;
    }

    /** ramfs_node_release. */
    method NodeRelease(n: nat)
      requires n in nodes && (nodes[n].cache != 0 ==> CanDropVnode(Now(), nodes[n].cache))
      modifies this
      ensures Now() == Release(old(Now()), n)
    {
      var v := nodes[n].cache;
      if v != 0 {
        nodes := nodes[n := nodes[n].(cache := 0)];
        VnodeUnref(v);
      } else {
        nodes := nodes - {n};
        freed := freed + [n];
      }
    }

    method UnlinkName(dv: nat, name: string) returns (r: Result<nat>)
      requires Good(Now())
      modifies this
      ensures Out(Now(), r) == Unlink(old(Now()), dv, name)
    {
      hide Release, Good;
      if dv !in vnodes || vnodes[dv].node !in nodes { return Err(InvalidArgument); }
      var d := vnodes[dv].node;
      if !nodes[d].dir { return Err(NotDirectory); }
      if name == "" || name == "." || name == ".." { return Err(InvalidArgument); }
      var i := FindChild(d, name);
      var kids := nodes[d].kids;
      if i == |kids| { return Err(NotFound); }
      var c := kids[i];
      if c !in nodes || nodes[c].kids != [] { return Err(DirectoryNotEmpty); }
      UnlinkDroppable(Now(), d, i);
      nodes := nodes[d := nodes[d].(kids := kids[..i] + kids[i + 1..])];
      nodes := nodes[c := nodes[c].(parent := 0)];
      assert Now() == old(Now()).(nodes := Detach(old(nodes), d, i));
      NodeRelease(c);
      r := Ok(0);
    }

    /** vfs_resolve_parent_path: the directory that holds the last name. */
    method ParentOf(path: seq<string>, mem: Memory) returns (r: Result<nat>)
      modifies this
      ensures Out(Now(), r) == O.ParentPath(old(Now()), path, mem)
    {
      hide O.LookupPath;
      if path == [] { return Err(InvalidArgument); }
      var leaf := path[|path| - 1];
      r := WalkPath(path[..|path| - 1], mem);
      if r.Err? { return; }
      if |leaf| > NAME_MAX { return Err(NameTooLong); }
      if leaf == "." || leaf == ".." { return Err(InvalidArgument); }
      if !mem(next) { return Err(OutOfMemory); }
    }

    /** vfs_mkdir, and the create half of vfs_open. */
    method Make(path: seq<string>, dir: bool, mem: Memory) returns (r: Result<nat>)
      modifies this
      ensures Out(Now(), r) == O.MakePath(old(Now()), path, dir, mem)
    {
      hide O.ParentPath, Create;
      r := ParentOf(path, mem);
      if r.Ok? && path != [] { r := CreateName(r.value, path[|path| - 1], dir, mem); }
    }

    /** vfs_unlink. */
    method Remove(path: seq<string>, mem: Memory) returns (r: Result<nat>)
      requires Good(Now())
      modifies this
      ensures Out(Now(), r) == O.UnlinkPath(old(Now()), path, mem)
    {
      hide O.ParentPath, Unlink, Good;
      O.ParentPathGood(Now(), path, mem);
      r := ParentOf(path, mem);
      if r.Ok? && path != [] { r := UnlinkName(r.value, path[|path| - 1]); }
    }

    /** vfs_open. */
    method OpenFile(path: seq<string>, create: bool, mem: Memory) returns (r: Result<nat>)
      modifies this
      ensures Out(Now(), r) == O.OpenFile(old(Now()), path, create, mem)
    {
      hide O.LookupPath, O.MakePath;
      r := WalkPath(path, mem);
      if r == Err(NotFound) && create { r := Make(path, false, mem); }
      if r.Err? { return; }
      var v := r.value;
      if v !in vnodes { return Err(Internal); }
      if !mem(next) { return Err(OutOfMemory); }
      vnodes := vnodes[v := vnodes[v].(refs := vnodes[v].refs + 1)];
      files, handles := files[next := File(v, 1, 0)], handles[next := next];
      r := Ok(next);
      next := next + 1;
    }

    /** file_unref by the holder of an opened file. */
    method CloseFile(h: nat)
      requires Good(Now())
      modifies this
      ensures Now() == C.CloseHandle(old(Now()), h)
    {
      hide Good, UnrefFile;
      if h !in handles { return; }
      C.HandleDroppable(Now(), h);
      var f := handles[h];
      handles := handles - {h};
      FileUnref(f);
    }

    /** SYS_open on a resolved path. */
    method Open(p: Pid, path: seq<string>, create: bool, mem: Memory) returns (r: Result<nat>)
      requires Good(Now())
      modifies this, fds
      ensures Out(Now(), r) == O.Open(old(Now()), p, path, create, mem)
    {
      hide O.OpenFile, C.FdAlloc, C.CloseHandle, Good;
      O.OpenFileGood(Now(), path, create, mem);
      r := OpenFile(path, create, mem);
      if r.Err? { return; }
      var f := r.value;
      C.GoodSized(Now());
      O.FdAllocGood(Now(), p, f);
      r := FdAlloc(p, f);
      CloseFile(f);
    }

    /** ramfs_ensure_capacity: the buffer doubles until it is large enough. */
    method EnsureCapacity(n: nat, size: nat, mem: Memory) returns (ok: bool)
      requires n in nodes
      modifies `nodes
      ensures ok == (size <= old(nodes)[n].cap || mem(next))
      ensures nodes == if ok then old(nodes)[n := old(nodes)[n].(cap := R.CapFor(old(nodes)[n].cap, size))]
          else old(nodes)
    {
      if size <= nodes[n].cap { return true; }
      var cap := if nodes[n].cap != 0 then nodes[n].cap else 64;
      while cap < size
        invariant 0 < cap && R.Doubled(cap, size) == R.CapFor(nodes[n].cap, size)
      {
        if cap > (U32 - 1) / 2 {
          cap := size;
          break;
        }
        cap := 2 * cap;
      }
      if !mem(next) { return false; }
      nodes := nodes[n := nodes[n].(cap := cap)];
      ok := true;
    }

    /** vfs_write: the bytes go in at the file's offset, which moves past them. */
    method WriteFile(f: nat, bytes: seq<byte>, mem: Memory) returns (r: Result<nat>)
      modifies this
      ensures Out(Now(), r) == R.Write(old(Now()), f, bytes, mem)
    {
      if f !in files || files[f].vn !in vnodes || vnodes[files[f].vn].node !in nodes { return Err(InvalidArgument); }
      var n := vnodes[files[f].vn].node;
      if nodes[n].dir { return Err(IsADirectory); }
      if bytes == [] { return Ok(0); }
      if |bytes| > U32 - 1 - files[f].off { return Err(InvalidArgument); }
      var enough := EnsureCapacity(n, files[f].off + |bytes|, mem);
      if !enough { return Err(OutOfMemory); }
      nodes := nodes[n := nodes[n].(data := R.Overwrite(nodes[n].data, files[f].off, bytes))];
      files := files[f := files[f].(off := files[f].off + |bytes|)];
      r := Ok(|bytes|);
    }

    /** vfs_read: the bytes from the file's offset on, which moves past them. */
    method ReadFile(f: nat, len: nat) returns (r: Result<nat>, bytes: seq<byte>)
      modifies this
      ensures Out(Now(), r) == R.Read(old(Now()), f, len) && (r.Ok? ==> bytes == R.ReadBytes(old(Now()), f, len))
    {
      bytes := [];
      if f !in files || files[f].vn !in vnodes
          || vnodes[files[f].vn].node !in nodes { return Err(InvalidArgument), []; }
      var n := vnodes[files[f].vn].node;
      if nodes[n].dir { return Err(IsADirectory), []; }
      var off, size := files[f].off, |nodes[n].data|;
      if off < size { bytes := nodes[n].data[off..Min(size, off + len)]; }
      files := files[f := files[f].(off := off + |bytes|)];
      assert nodes == nodes[n := nodes[n].(data := nodes[n].data)];
      r := Ok(|bytes|);
    }

    /**
     ramfs_tree_release: each child is taken out and released, then the node. Nodes made before n keep their
     place, no other root appears, and a file that is open keeps its node and its data.
     */
    method TreeRelease(n: nat)
      requires Good(Now()) && n in nodes && nodes[n].parent == n
      modifies this
      ensures Good(Now()) && Lasting(old(Now()), Now(), {}) && files == old(files) && handles == old(handles)
          && next == old(next)
      ensures !Linked(Now(), n) && RootsKept(old(Now()), Now())
      ensures forall m :: m in old(nodes) && m < n ==> m in nodes && nodes[m] == old(nodes)[m]
      decreases next - n
    {
      hide Good, Lasting, RootsKept, Linked;
      Here(Now(), n);
      while nodes[n].kids != []
        invariant Good(Now()) && Lasting(old(Now()), Now(), {}) && files == old(files) && handles == old(handles)
            && next == old(next)
        invariant n in nodes && nodes[n].parent == n && RootsKept(old(Now()), Now())
        invariant forall m :: m in old(nodes) && m < n ==> m in nodes && nodes[m] == old(nodes)[m]
        decreases |nodes[n].kids|
      {
        ghost var s := Now();
        ghost var k := |nodes[n].kids|;
        T.OrphanGood(s, n);
        var c := nodes[n].kids[0];
        nodes := nodes[n := nodes[n].(kids := nodes[n].kids[1..])];
        nodes := nodes[c := nodes[c].(parent := c)];
        ghost var t := Now();
        assert t == T.Orphan(s, n);
        Here(t, c);
        TreeRelease(c);
        OneLess(old(Now()), s, n, Now());
      }
      ghost var s := Now();
      T.DropRootGood(s, n);
      T.RootDroppable(s, n);
      nodes := nodes[n := nodes[n].(parent := 0)];
      NodeRelease(n);
      Last(old(Now()), s, n, Now());
    }

    /** ramfs_unmount_fn: the nodes left are exactly the ones open files stand for, with their data. */
    method Unmount()
      requires Good(Now()) && forall n :: n in nodes && nodes[n].parent == n ==> n == ROOT
      modifies this
      ensures Good(Now()) && Lasting(old(Now()), Now(), {}) && files == old(files) && handles == old(handles)
      ensures forall n :: n in nodes <==> IsOpen(Now(), n)
    {
      hide Good, Lasting, IsOpen;
      if ROOT in nodes && nodes[ROOT].parent == ROOT {
        TreeRelease(ROOT);
      } else {
        Unchanged(Now());
      }
      T.OnlyOpenLeft(Now());
    }
  }

  lemma Unchanged(s: State)
    requires Good(s)
    ensures Lasting(s, s, {})
  {
  }

  lemma Here(s: State, n: nat)
    requires Good(s) && n in s.nodes
    ensures n < s.next && Lasting(s, s, {}) && RootsKept(s, s)
  {
  }

  /** The loop's step: the child's release adds no root to those there were before the child was taken. */
  lemma OneLess(o: State, s: State, n: nat, u: State)
    requires n in s.nodes && s.nodes[n].kids != [] && s.nodes[n].kids[0] in s.nodes && n < s.nodes[n].kids[0]
    requires Lasting(o, s, {}) && RootsKept(o, s) && Lasting(s, T.Orphan(s, n), {}) && Lasting(T.Orphan(s, n), u, {})
    requires RootsKept(T.Orphan(s, n), u) && Good(u) && !Linked(u, s.nodes[n].kids[0])
    ensures Lasting(o, u, {}) && RootsKept(o, u)
  {
    hide Inv, Issued, Lasting;
    var none: set<nat> := {};
    LastingTrans(o, s, T.Orphan(s, n), none, none);
    LastingTrans(o, T.Orphan(s, n), u, none + none, none);
    assert none + none == none;
  }

  lemma Last(o: State, s: State, n: nat, u: State)
    requires Lasting(o, s, {}) && RootsKept(o, s) && T.Dropped(s, n, u)
    ensures Lasting(o, u, {}) && RootsKept(o, u) && !Linked(u, n) && Good(u)
  {
    hide Inv, Tree, Issued, Lasting;
    var none: set<nat> := {};
    LastingTrans(o, s, u, none, none);
    assert none + none == none;
  }
}
