/** The calls on descriptors and paths: open, close, dup, dup2, mkdir, unlink, read and write over ramfs. */
module VfsCalls {
  import opened Machine
  import opened Refs
  import opened RamTree
  import opened Ramfs
  import opened RamfsDir

  /** Where the tables, one behind the other, keep a process's descriptor. */
  function Slot(p: Pid, fd: nat): nat { p * FD_MAX + fd }

  /** There is a table of full size for every process. */
  predicate Sized(s: State) { |s.fds| == TABLES * FD_MAX }

  /** fd_find_free: the first unused descriptor from fd on, FD_MAX when all are used. */
  function FindFree(s: State, p: Pid, fd: nat): (r: nat)
    requires Sized(s) && fd <= FD_MAX
    ensures fd <= r <= FD_MAX && (r < FD_MAX ==> s.fds[Slot(p, r)] == 0) && forall j ::
          fd <= j < r ==> s.fds[Slot(p, j)] != 0
    decreases FD_MAX - fd
  {
    if fd == FD_MAX || s.fds[Slot(p, fd)] == 0 then fd else FindFree(s, p, fd + 1)
  }

  /** fd_get: the file behind a descriptor, 0 when there is none. */
  function FdGet(s: State, p: Pid, fd: int): nat
    requires Sized(s)
  {
    if 0 <= fd < FD_MAX then s.fds[Slot(p, fd)] else 0
  }

  /** fd_alloc. */
  function FdAlloc(s: State, p: Pid, f: nat): Out
    requires Sized(s)
  {
    if f !in s.files then Out(s, Err(InvalidArgument))
    else
      var fd := FindFree(s, p, FD_FIRST);
      if fd == FD_MAX then Out(s, Err(TooManyOpenFiles)) else Out(PutFd(s, Slot(p, fd), f), Ok(fd))
  }

  /** What a descriptor holds can be let go. */
  lemma SlotDroppable(s: State, i: nat)
    requires Good(s) && i < |s.fds| && s.fds[i] != 0
    ensures CanDrop(ClearFd(s, i), s.fds[i])
  {
    hide Inv, Tree, Accounted;
    ClearFdInv(s, i);
    Droppable(ClearFd(s, i), s.fds[i]);
  }

  lemma HandleDroppable(s: State, h: nat)
    requires Good(s) && h in s.handles
    ensures CanDrop(s.(handles := s.handles - {h}), s.handles[h])
  {
    hide Inv, Tree, Accounted;
    DropHandleInv(s, h);
    Droppable(s.(handles := s.handles - {h}), s.handles[h]);
  }

  lemma GoodSized(s: State)
    requires Good(s)
    ensures Sized(s)
  {
    hide FilesOk, VnodesOk, NodesOk, OwnNodes, Tree, Accounted;
  }

  /** The state after a used slot is emptied and its file let go. */
  function Emptied(s: State, i: nat): State
    requires Good(s) && i < |s.fds| && s.fds[i] != 0
  {
    SlotDroppable(s, i);
    UnrefFile(ClearFd(s, i), s.fds[i])
  }

  /** fd_close. */
  function FdClose(s: State, p: Pid, fd: int): Out
    requires Good(s)
  {
    GoodSized(s);
    if FdGet(s, p, fd) == 0 then Out(s, Err(BadFileDescriptor)) else Out(Emptied(s, Slot(p, fd)), Ok(0))
  }

  /** fd_alloc_at: whatever the descriptor held is closed first, unless it already holds this file. */
  function FdAllocAt(s: State, p: Pid, fd: int, f: nat): Out
    requires Good(s)
  {
    GoodSized(s);
    if f !in s.files || !(0 <= fd < FD_MAX) then Out(s, Err(InvalidArgument))
    else
      var i := Slot(p, fd);
      if s.fds[i] == f then Out(s, Ok(fd))
      else if s.fds[i] == 0 then Out(PutFd(s, i, f), Ok(fd))
      else
        EmptiedIs(s, i);
        Out(PutFd(Emptied(s, i), i, f), Ok(fd))
  }

  /** fd_dup. */
  function Dup(s: State, p: Pid, fd: int): Out
    requires Sized(s)
  {
    if FdGet(s, p, fd) == 0 then Out(s, Err(BadFileDescriptor)) else FdAlloc(s, p, FdGet(s, p, fd))
  }

  /** fd_dup2. */
  function Dup2(s: State, p: Pid, oldfd: int, newfd: int): Out
    requires Good(s)
  {
    GoodSized(s);
    if !(0 <= newfd < FD_MAX) then Out(s, Err(InvalidArgument))
    else if FdGet(s, p, oldfd) == 0 then Out(s, Err(BadFileDescriptor))
    else if oldfd == newfd then Out(s, Ok(newfd))
    else FdAllocAt(s, p, newfd, FdGet(s, p, oldfd))
  }

  /** file_unref by kernel code that opened the file itself. */
  function CloseHandle(s: State, h: nat): State
    requires Good(s)
  {
    if h in s.handles then
      HandleDroppable(s, h);
      UnrefFile(s.(handles := s.handles - {h}), s.handles[h])
    else s
  }

  /** waitpid's loop over the child's table: descriptors from fd on are closed. */
  function CloseFrom(s: State, p: Pid, fd: nat): State
    requires Good(s) && fd <= FD_MAX
    decreases FD_MAX - fd
  {
    if fd == FD_MAX then s
    else
      GoodSized(s);
      var i := Slot(p, fd);
      if s.fds[i] == 0 then CloseFrom(s, p, fd + 1)
      else
        EmptiedIs(s, i);
        CloseFrom(Emptied(s, i), p, fd + 1)
  }

  /** A step that only lets go or holds: the tree keeps its names. */
  ghost predicate Calm(s: State, s': State) {
    Good(s') && Kept(s, s', {}) && forall e, x, c :: Has(s'.nodes, e, x, c) <==> Has(s.nodes, e, x, c)
  }

  lemma CalmTrans(a: State, b: State, c: State)
    requires Calm(a, b) && Calm(b, c)
    ensures Calm(a, c)
  {
    hide Good, Has, Lasting, RootsKept;
    var none: set<nat> := {};
    KeptTrans(a, b, c, none, none);
    assert none + none == none;
  }

  lemma CalmIs(s: State, s': State)
    requires Calm(s, s')
    ensures Good(s')
  {
  }

  lemma NotLinked(s: State, v: nat)
    requires Inv(s, 0, v) && v in s.vnodes && s.vnodes[v].refs == 1
    ensures !Linked(s, s.vnodes[v].node)
  {
    assert VnodeOk(s, v, v);
  }

  /** What holds whichever reference is being let go. */
  ghost predicate Standing(s: State) { Tree(s.nodes) && Issued(s) && Accounted(s) }

  /** A vnode losing a reference: its node goes only when out of the tree. */
  lemma UnrefVnodeCalm(s: State, v: nat)
    requires Inv(s, 0, v) && Tree(s.nodes) && Issued(s) && CanDropVnode(s, v)
    ensures var t := UnrefVnode(s, v);
            && Inv(t, 0, 0) && Tree(t.nodes) && Issued(t) && Kept(s, t, {})
            && forall e, x, c :: Has(t.nodes, e, x, c) <==> Has(s.nodes, e, x, c)
  {
    hide Inv, Tree, Has, UnrefVnode;
    UnrefVnodeInv(s, v);
    UnrefVnodeFiles(s, v);
    UnrefVnodeSame(s, v);
    if s.vnodes[v].refs == 1 {
      NotLinked(s, v);
      UnrefTree(s, v);
    }
  }

  lemma Zeroless(s: State, f: nat, v: nat)
    requires Inv(s, f, v)
    ensures 0 !in s.files && 0 !in s.vnodes && 0 !in s.nodes
  {
    hide FilesOk, VnodesOk, NodesOk, OwnNodes;
  }

  lemma UnrefVnodeGood(s: State, v: nat)
    requires Inv(s, 0, v) && Standing(s) && CanDropVnode(s, v)
    ensures Calm(s, UnrefVnode(s, v))
  {
    hide Inv, Tree, Has, UnrefVnode, Accounted, Issued, Kept;
    UnrefVnodeCalm(s, v);
    Zeroless(s, 0, v);
    UnrefVnodeAccounted(s, v);
  }

  /** The last reference to a file: its vnode loses one and its own memory is freed. */
  lemma LastAccounted(s: State, f: nat)
    requires CanDrop(s, f) && s.files[f].refs == 1 && Accounted(s) && Issued(s) && 0 !in s.files && 0 !in s.vnodes
        && 0 !in s.nodes
    ensures Accounted(UnrefFile(s, f))
  {
    hide Once;
    var v := s.files[f].vn;
    var u := UnrefVnode(s, v);
    UnrefVnodeAccounted(s, v);
    assert u.vnodes - {f} == u.vnodes && u.nodes - {f} == u.nodes;
    AccountedFreed(u, u.(files := u.files - {f}, freed := u.freed + [f]), f);
  }

  /** Taking a file out of the map loses nothing else. */
  lemma OutOfMap(s: State, f: nat, t: State)
    requires Kept(s.(files := s.files - {f}), t, {})
    ensures Kept(s, t.(freed := t.freed + [f]), {})
  {
  }

  lemma LastGood(s: State, f: nat)
    requires Inv(s, f, 0) && Standing(s) && CanDrop(s, f) && s.files[f].refs == 1
    ensures Calm(s, UnrefFile(s, f)) && UnrefFile(s, f).files == s.files - {f}
    ensures UnrefFile(s, f).fds == s.fds && UnrefFile(s, f).handles == s.handles
  {
    hide Inv, Tree, Has, UnrefVnode, Accounted, Kept;
    var t, v := s.(files := s.files - {f}), s.files[f].vn;
    LastUnref(s, f);
    UnrefVnodeCalm(t, v);
    UnrefVnodeFiles(t, v);
    LogInv(UnrefVnode(t, v), [f]);
    OutOfMap(s, f, UnrefVnode(t, v));
    Zeroless(s, f, 0);
    LastAccounted(s, f);
  }

  /** A file losing a reference: it goes exactly when nobody else holds it. */
  lemma UnrefFileGood(s: State, f: nat)
    requires Inv(s, f, 0) && Standing(s) && CanDrop(s, f)
    ensures Calm(s, UnrefFile(s, f)) && (f in UnrefFile(s, f).files <==> Holders(s, f) > 0)
    ensures UnrefFile(s, f).fds == s.fds && UnrefFile(s, f).handles == s.handles
    ensures (forall g ::
          g in s.files && g != f ==> g in UnrefFile(s, f).files) && UnrefFile(s, f).files.Keys <= s.files.Keys
  {
    hide Inv, Tree, Has, UnrefVnode, Holders, Accounted;
    UnrefFileInv(s, f);
    if s.files[f].refs == 1 {
      LastGood(s, f);
    } else {
      AccountedSame(s, UnrefFile(s, f));
    }
  }

  lemma StandingIs(s: State)
    requires Good(s)
    ensures Inv(s, 0, 0) && Standing(s) && Sized(s) && 0 !in s.files && Kept(s, s, {}) && Calm(s, s)
    ensures (forall i :: 0 <= i < |s.fds| && s.fds[i] != 0 ==> s.fds[i] in s.files) && forall h ::
          h in s.handles ==> s.handles[h] in s.files
  {
    hide FilesOk, VnodesOk, NodesOk, OwnNodes, Tree, Has, Accounted;
  }

  /** Emptying a slot: its file goes exactly when nobody else holds it. */
  lemma EmptiedIs(s: State, i: nat)
    requires Good(s) && i < |s.fds| && s.fds[i] != 0
    ensures var t := Emptied(s, i);
            && Good(t) && Calm(s, t) && t.fds == s.fds[i := 0] && t.handles == s.handles && s.fds[i] in s.files
                && t.files.Keys <= s.files.Keys
            && forall g :: g in s.files ==> (g in t.files <==> g != s.fds[i] || Holders(ClearFd(s, i), g) > 0)
  {
    hide Inv, Tree, Good, Has, UnrefFile, Holders, Accounted;
    SlotDroppable(s, i);
    ClearFdIn(s, i);
    UnrefFileGood(ClearFd(s, i), s.fds[i]);
  }

  lemma ClearFdIn(s: State, i: nat)
    requires Good(s) && i < |s.fds| && s.fds[i] != 0
    ensures Inv(ClearFd(s, i), s.fds[i], 0) && s.fds[i] in s.files && Standing(ClearFd(s, i))
  {
    hide Inv, Tree, Accounted;
    StandingIs(s);
    ClearFdInv(s, i);
    AccountedSame(s, ClearFd(s, i));
  }

  /** Close empties one descriptor; its file goes exactly when nobody else holds it. */
  lemma FdCloseIs(s: State, p: Pid, fd: int)
    requires Good(s)
    ensures Sized(s) && FdClose(s, p, fd).r == if FdGet(s, p, fd) == 0 then Err(BadFileDescriptor) else Ok(0)
    ensures FdGet(s, p, fd) == 0 ==> FdClose(s, p, fd).s == s
    ensures Calm(s, FdClose(s, p, fd).s)
    ensures FdGet(s, p, fd) != 0 ==>
              var t, i := FdClose(s, p, fd).s, Slot(p, fd);
              && t.fds == s.fds[i := 0] && t.handles == s.handles
              && forall g :: g in s.files ==> (g in t.files <==> g != s.fds[i] || Holders(ClearFd(s, i), g) > 0)
  {
    hide Good, Calm, Holders, Emptied, Inv, Standing;
    StandingIs(s);
    if FdGet(s, p, fd) != 0 { EmptiedIs(s, Slot(p, fd)); }
  }

  /** Another reference to a file in an unused slot. */
  lemma PutFdGood(s: State, i: nat, f: nat)
    requires Good(s) && i < |s.fds| && s.fds[i] == 0 && f in s.files
    ensures Calm(s, PutFd(s, i, f))
    ensures PutFd(s, i, f).handles == s.handles && PutFd(s, i, f).fds == s.fds[i := f]
        && PutFd(s, i, f).files.Keys == s.files.Keys
  {
    hide Inv, Tree, Has, Accounted;
    StandingIs(s);
    PutFdInv(s, i, f);
    AccountedSame(s, PutFd(s, i, f));
  }

  /** fd_alloc takes the lowest descriptor from 3 on, or fails with the table full. */
  lemma FdAllocIs(s: State, p: Pid, f: nat)
    requires Good(s) && f in s.files
    ensures Sized(s) && Calm(s, FdAlloc(s, p, f).s) && FdAlloc(s, p, f).s.handles == s.handles
        && FdAlloc(s, p, f).s.files.Keys == s.files.Keys
    ensures FdAlloc(s, p, f).r.Err? <==> forall fd :: FD_FIRST <= fd < FD_MAX ==> s.fds[Slot(p, fd)] != 0
    ensures FdAlloc(s, p, f).r.Err? ==> FdAlloc(s, p, f) == Out(s, Err(TooManyOpenFiles))
    ensures var r := FdAlloc(s, p, f).r; r.Ok? ==>
              FD_FIRST <= r.value < FD_MAX && s.fds[Slot(p, r.value)] == 0
                  && FdAlloc(s, p, f).s.fds == s.fds[Slot(p, r.value) := f]
              && forall j :: FD_FIRST <= j < r.value ==> s.fds[Slot(p, j)] != 0
  {
    hide Good, Calm, PutFd, FdAlloc, Inv, Standing;
    StandingIs(s);
    FdAllocShape(s, p, f);
    var fd := FindFree(s, p, FD_FIRST);
    if fd < FD_MAX { PutFdGood(s, Slot(p, fd), f); }
  }

  lemma FdAllocShape(s: State, p: Pid, f: nat)
    requires Sized(s) && f in s.files
    ensures var fd := FindFree(s, p, FD_FIRST);
            FdAlloc(s, p, f) == if fd == FD_MAX then Out(s, Err(TooManyOpenFiles))
                else Out(PutFd(s, Slot(p, fd), f), Ok(fd))
  {
    hide PutFd;
  }

  /** dup gives the lowest unused descriptor from 3 on the same file, which stays open behind both. */
  lemma DupIs(s: State, p: Pid, fd: int)
    requires Good(s)
    ensures Sized(s) && Calm(s, Dup(s, p, fd).s) && Dup(s, p, fd).s.handles == s.handles
        && Dup(s, p, fd).s.files.Keys == s.files.Keys
    ensures Dup(s, p, fd).r.Err? ==> Dup(s, p, fd).s == s
    ensures Dup(s, p, fd).r == Err(BadFileDescriptor) <==> FdGet(s, p, fd) == 0
    ensures Dup(s, p, fd).r.Err? <==>
          FdGet(s, p, fd) == 0 || forall k :: FD_FIRST <= k < FD_MAX ==> s.fds[Slot(p, k)] != 0
    ensures var o := Dup(s, p, fd); o.r.Ok? ==>
              && FD_FIRST <= o.r.value < FD_MAX && o.r.value != fd && s.fds[Slot(p, o.r.value)] == 0
              && (forall k :: FD_FIRST <= k < o.r.value ==> s.fds[Slot(p, k)] != 0)
              && o.s.fds == s.fds[Slot(p, o.r.value) := s.fds[Slot(p, fd)]]
              && Sized(o.s) && FdGet(o.s, p, o.r.value) == FdGet(o.s, p, fd) == FdGet(s, p, fd)
  {
    hide Good, Calm, FdAlloc, Slot, Inv, Standing;
    StandingIs(s);
    if FdGet(s, p, fd) != 0 {
      SlotBound(p, fd);
      FdAllocIs(s, p, FdGet(s, p, fd));
      if Dup(s, p, fd).r.Ok? { SlotBound(p, Dup(s, p, fd).r.value); }
    }
  }

  lemma SlotBound(p: Pid, fd: nat)
    requires fd < FD_MAX
    ensures Slot(p, fd) < TABLES * FD_MAX
  {
  }

  /** dup2 leaves the new descriptor holding the old one's file, and only that descriptor changes. */
  lemma Dup2Is(s: State, p: Pid, oldfd: int, newfd: int)
    requires Good(s)
    ensures Sized(s) && Calm(s, Dup2(s, p, oldfd, newfd).s) && Dup2(s, p, oldfd, newfd).s.handles == s.handles
    ensures Dup2(s, p, oldfd, newfd).r ==
            if !(0 <= newfd < FD_MAX) then Err(InvalidArgument)
                else if FdGet(s, p, oldfd) == 0 then Err(BadFileDescriptor) else Ok(newfd)
    ensures Dup2(s, p, oldfd, newfd).r.Err? ==> Dup2(s, p, oldfd, newfd).s == s
    ensures Dup2(s, p, oldfd, newfd).r.Ok? ==>
          Dup2(s, p, oldfd, newfd).s.fds == s.fds[Slot(p, newfd) := s.fds[Slot(p, oldfd)]]
  {
    hide Good, Calm, Emptied, PutFd, FdAllocAt, Inv, Standing;
    StandingIs(s);
    if 0 <= newfd < FD_MAX && FdGet(s, p, oldfd) != 0 { AllocAtIs(s, p, newfd, FdGet(s, p, oldfd)); }
  }

  /** fd_alloc_at: afterwards the descriptor holds the file, and no other slot changed. */
  lemma AllocAtIs(s: State, p: Pid, fd: nat, f: nat)
    requires Good(s) && fd < FD_MAX && f in s.files && f != 0
    ensures Sized(s)
    ensures var o := FdAllocAt(s, p, fd, f);
          Calm(s, o.s) && o.s.handles == s.handles && o.r == Ok(fd) && o.s.fds == s.fds[Slot(p, fd) := f]
  {
    hide Good, Calm, Emptied, PutFd, Holders, Inv, Standing;
    StandingIs(s);
    var i := Slot(p, fd);
    if s.fds[i] == f {
    } else if s.fds[i] == 0 {
      PutFdGood(s, i, f);
    } else {
      MovedIn(s, i, f);
    }
  }

  /** The slot's old file goes and the new one takes its place. */
  lemma MovedIn(s: State, i: nat, f: nat)
    requires Good(s) && i < |s.fds| && s.fds[i] != 0 && s.fds[i] != f && f in s.files
    ensures var t := Emptied(s, i); f in t.files && i < |t.fds|
    ensures var u := PutFd(Emptied(s, i), i, f); Calm(s, u) && u.handles == s.handles && u.fds == s.fds[i := f]
  {
    hide Good, Calm, Emptied, PutFd, Holders;
    var t := Emptied(s, i);
    EmptiedIs(s, i);
    PutFdGood(t, i, f);
    CalmTrans(s, t, PutFd(t, i, f));
    Overwritten(s.fds, i, f);
  }

  lemma Overwritten(fds: seq<nat>, i: nat, f: nat)
    requires i < |fds|
    ensures fds[i := 0][i := f] == fds[i := f]
  {
  }

  /** A handle given back: its file goes exactly when nobody else holds it. */
  lemma CloseHandleIs(s: State, h: nat)
    requires Good(s) && h in s.handles
    ensures Calm(s, CloseHandle(s, h)) && CloseHandle(s, h).fds == s.fds && CloseHandle(s, h).handles == s.handles - {h}
    ensures forall g ::
          g in s.files ==>
            (g in CloseHandle(s, h).files <==> g != s.handles[h] || Holders(s.(handles := s.handles - {h}), g) > 0)
    ensures CloseHandle(s, h).files.Keys <= s.files.Keys
  {
    hide Inv, Tree, Good, Has, UnrefFile, Holders, Accounted;
    StandingIs(s);
    HandleDroppable(s, h);
    DropHandleIn(s, h);
    UnrefFileGood(s.(handles := s.handles - {h}), s.handles[h]);
  }

  lemma DropHandleIn(s: State, h: nat)
    requires Good(s) && h in s.handles
    ensures Inv(s.(handles := s.handles - {h}), s.handles[h], 0) && s.handles[h] in s.files
        && Standing(s.(handles := s.handles - {h}))
  {
    hide Inv, Tree, Accounted;
    DropHandleInv(s, h);
    AccountedSame(s, s.(handles := s.handles - {h}));
  }

  /** Descriptors from fd on are unused, and nothing else in the tables changed. */
  ghost predicate Cleared(fds: seq<nat>, fds': seq<nat>, p: Pid, fd: nat) {
    && |fds| == |fds'| == TABLES * FD_MAX && (forall k :: fd <= k < FD_MAX ==> fds'[Slot(p, k)] == 0)
    && (forall i :: 0 <= i < |fds| && !(Slot(p, fd) <= i < Slot(p, FD_MAX)) ==> fds'[i] == fds[i])
  }

  lemma ClearedOne(fds: seq<nat>, p: Pid, fd: nat, fds': seq<nat>)
    requires |fds| == TABLES * FD_MAX && fd < FD_MAX && Cleared(fds[Slot(p, fd) := 0], fds', p, fd + 1)
    ensures Cleared(fds, fds', p, fd)
  {
    var i := Slot(p, fd);
    assert fds'[i] == 0;
    forall k | fd <= k < FD_MAX ensures fds'[Slot(p, k)] == 0 { if k == fd { assert Slot(p, k) == i; } }
  }

  /** Reaping a process empties its table and leaves every other table, and every file another one holds, alone. */
  lemma {:induction false} CloseFromIs(s: State, p: Pid, fd: nat)
    requires Good(s) && fd <= FD_MAX
    ensures var t := CloseFrom(s, p, fd);
            Calm(s, t) && t.handles == s.handles && t.files.Keys <= s.files.Keys && Cleared(s.fds, t.fds, p, fd)
    decreases FD_MAX - fd
  {
    hide Good, Calm, Emptied, Holders, Cleared, Inv, Standing;
    StandingIs(s);
    if fd == FD_MAX {
      assert Cleared(s.fds, s.fds, p, fd) by { ClearedNone(s.fds, p); }
    } else {
      var i := Slot(p, fd);
      if s.fds[i] == 0 {
        CloseFromIs(s, p, fd + 1);
        assert s.fds[i := 0] == s.fds;
      } else {
        EmptiedIs(s, i);
        CloseFromIs(Emptied(s, i), p, fd + 1);
        CalmTrans(s, Emptied(s, i), CloseFrom(s, p, fd));
      }
      ClearedOne(s.fds, p, fd, CloseFrom(s, p, fd).fds);
    }
  }

  lemma ClearedNone(fds: seq<nat>, p: Pid)
    requires |fds| == TABLES * FD_MAX
    ensures Cleared(fds, fds, p, FD_MAX)
  {
  }
}
