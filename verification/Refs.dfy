/** Reference counts of open files and vnodes over ramfs nodes: who holds what, and when it goes. */
module Refs {
  import opened Machine

  const TABLES: nat := 64
  const FD_MAX: nat := 256
  const FD_FIRST: nat := 3
  const ROOT: nat := 1

  /** A process with a descriptor table. */
  type Pid = p: nat | p < TABLES

  datatype File = File(vn: nat, refs: nat, off: nat)
  datatype Vnode = Vnode(node: nat, refs: nat)

  /**
   A ramfs node; parent 0 means that it is out of the tree, cache 0 that it has no cached vnode. A node held from
   outside the tree, by the mount or by a release under way, is its own parent. Its data lies in a buffer of cap bytes.
   */
  datatype Node = Node(name: string, dir: bool, parent: nat, kids: seq<nat>, cache: nat, data: seq<byte>,
      cap: nat)

  /**
   fds holds a file per descriptor, 0 where unused, the tables of all processes one behind the other; handles are
   files held by kernel code outside the tables. The maps hold the objects that have not been freed, freed those
   that have, in order; next is the identity of the next one made.
   */
  datatype State = State(fds: seq<nat>, handles: map<nat, nat>, files: map<nat, File>, vnodes: map<nat, Vnode>,
      nodes: map<nat, Node>, next: nat, freed: seq<nat>)

  ghost function SlotSet(fds: seq<nat>, f: nat): set<nat> { set i: nat | i < |fds| && fds[i] == f }

  ghost function HandleSet(handles: map<nat, nat>, f: nat): set<nat> { set h | h in handles && handles[h] == f }

  ghost function OpenSet(files: map<nat, File>, v: nat): set<nat> { set f | f in files && files[f].vn == v }

  /** The number of descriptors and handles that hold a file. */
  ghost function Holders(s: State, f: nat): nat { |SlotSet(s.fds, f)| + |HandleSet(s.handles, f)| }

  predicate InTree(nodes: map<nat, Node>, n: nat) { n in nodes && nodes[n].parent != 0 }

  predicate Linked(s: State, n: nat) { InTree(s.nodes, n) }

  predicate Cached(s: State, v: nat) {
    v in s.vnodes && s.vnodes[v].node in s.nodes && s.nodes[s.vnodes[v].node].cache == v
  }

  function One(b: bool): nat { if b then 1 else 0 }

  /** A file's count is the number of its holders; a reference about to be dropped counts extra. */
  ghost predicate FileOk(s: State, f: nat, extra: nat)
    requires f in s.files
  {
    && s.files[f].refs == Holders(s, f) + One(f == extra) && 0 < s.files[f].refs && s.files[f].vn in s.vnodes
  }

  /** A vnode's count is the number of its open files, plus one while its node is linked. */
  ghost predicate VnodeOk(s: State, v: nat, extra: nat)
    requires v in s.vnodes
  {
    && s.vnodes[v].refs == |OpenSet(s.files, v)| + One(Cached(s, v)) + One(v == extra) && 0 < s.vnodes[v].refs
    && s.vnodes[v].node in s.nodes && (Linked(s, s.vnodes[v].node) ==> Cached(s, v))
  }

  ghost predicate NodeOk(s: State, n: nat)
    requires n in s.nodes
  {
    && (s.nodes[n].cache != 0 ==> s.nodes[n].cache in s.vnodes && s.vnodes[s.nodes[n].cache].node == n && Linked(s, n))
    && (Linked(s, n) || exists v :: v in s.vnodes && s.vnodes[v].node == n)
    && |s.nodes[n].data| <= s.nodes[n].cap < U32 && (s.nodes[n].dir ==> s.nodes[n].data == [])
  }

  ghost predicate Shape(s: State) {
    && |s.fds| == TABLES * FD_MAX && 0 !in s.files && 0 !in s.vnodes && 0 !in s.nodes
    && (forall i :: 0 <= i < |s.fds| && s.fds[i] != 0 ==> s.fds[i] in s.files)
    && (forall h :: h in s.handles ==> s.handles[h] in s.files)
  }

  ghost predicate FilesOk(s: State, ef: nat) { forall f :: f in s.files ==> FileOk(s, f, ef) }

  ghost predicate VnodesOk(s: State, ev: nat) { forall v :: v in s.vnodes ==> VnodeOk(s, v, ev) }

  ghost predicate NodesOk(s: State) { forall n :: n in s.nodes ==> NodeOk(s, n) }

  /** A node has at most one vnode. */
  ghost predicate OwnNodes(s: State) {
    forall v, w :: v in s.vnodes && w in s.vnodes && v != w ==> s.vnodes[v].node != s.vnodes[w].node
  }

  /** The invariant; ef and ev are a file and a vnode that carry a reference just given up, 0 for none. */
  ghost predicate Inv(s: State, ef: nat, ev: nat) {
    Shape(s) && FilesOk(s, ef) && VnodesOk(s, ev) && NodesOk(s) && OwnNodes(s)
  }

  /** Memory that vnode_unref touches and may free is live, and there is a reference to drop. */
  predicate CanDropVnode(s: State, v: nat) { v in s.vnodes && 0 < s.vnodes[v].refs && s.vnodes[v].node in s.nodes }

  /** vnode_unref, with ramfs_destroy_vnode when the count reaches zero: node and vnode are freed together. */
  function UnrefVnode(s: State, v: nat): State
    requires CanDropVnode(s, v)
  {
    var n := s.vnodes[v].node;
    if s.vnodes[v].refs > 1 then s.(vnodes := s.vnodes[v := s.vnodes[v].(refs := s.vnodes[v].refs - 1)])
    else s.(vnodes := s.vnodes - {v}, nodes := s.nodes - {n}, freed := s.freed + [n, v])
  }

  /** Memory that file_unref touches and may free is live. */
  predicate CanDrop(s: State, f: nat) {
    f in s.files && 0 < s.files[f].refs && (s.files[f].refs == 1 ==> CanDropVnode(s, s.files[f].vn))
  }

  /** file_unref and vfs_close: at the last reference the vnode loses one and the file is freed. */
  function UnrefFile(s: State, f: nat): State
    requires CanDrop(s, f)
  {
    if s.files[f].refs > 1 then s.(files := s.files[f := s.files[f].(refs := s.files[f].refs - 1)])
    else
      var t := UnrefVnode(s.(files := s.files - {f}), s.files[f].vn);
      t.(freed := t.freed + [f])
  }

  /** With the books in order, whatever is held can be dropped. */
  lemma Droppable(s: State, f: nat)
    requires Inv(s, f, 0) && f in s.files
    ensures CanDrop(s, f)
  {
    hide Holders, OpenSet, NodesOk, OwnNodes;
    assert FileOk(s, f, f) && VnodeOk(s, s.files[f].vn, 0);
  }

  lemma DroppableVnode(s: State, v: nat)
    requires Inv(s, 0, v) && v in s.vnodes
    ensures CanDropVnode(s, v)
  {
    hide Holders, OpenSet, NodesOk, OwnNodes, FilesOk;
    assert VnodeOk(s, v, v);
  }

  lemma OpenNotEmpty(files: map<nat, File>, f: nat)
    requires f in files
    ensures f in OpenSet(files, files[f].vn) && 0 < |OpenSet(files, files[f].vn)|
  {
  }

  /** Dropping the extra reference restores the books; at zero the vnode and its node are gone. */
  lemma UnrefVnodeInv(s: State, v: nat)
    requires Inv(s, 0, v) && CanDropVnode(s, v)
    ensures Inv(UnrefVnode(s, v), 0, 0)
    ensures v in UnrefVnode(s, v).vnodes <==> OpenSet(s.files, v) != {} || Cached(s, v)
    ensures v !in UnrefVnode(s, v).vnodes ==> s.vnodes[v].node !in UnrefVnode(s, v).nodes
  {
    hide Shape, FilesOk, NodesOk, OwnNodes, OpenSet;
    assert VnodeOk(s, v, v);
    if s.vnodes[v].refs > 1 {
      UnrefVnodeKept(s, v);
    } else {
      UnrefVnodeGone(s, v);
    }
  }

  lemma UnrefVnodeKept(s: State, v: nat)
    requires Inv(s, 0, v) && CanDropVnode(s, v) && s.vnodes[v].refs > 1
    ensures Inv(UnrefVnode(s, v), 0, 0)
  {
    hide FilesOk, NodesOk, VnodesOk;
    var s' := UnrefVnode(s, v);
    FilesHaveVnodes(s, 0);
    FilesFramed(s, s', 0);
    NodesFramed(s, s');
    KeptVnodes(s, v);
  }

  lemma FilesHaveVnodes(s: State, ef: nat)
    requires FilesOk(s, ef)
    ensures forall f :: f in s.files ==> s.files[f].vn in s.vnodes
  {
    forall f | f in s.files ensures s.files[f].vn in s.vnodes { assert FileOk(s, f, ef); }
  }

  lemma KeptVnodes(s: State, v: nat)
    requires VnodesOk(s, v) && CanDropVnode(s, v) && s.vnodes[v].refs > 1 && 0 !in s.vnodes
    ensures VnodesOk(UnrefVnode(s, v), 0)
  {
    hide OpenSet;
    var s' := UnrefVnode(s, v);
    forall w | w in s'.vnodes ensures VnodeOk(s', w, 0) { assert VnodeOk(s, w, v); }
  }

  /** Files are in order as long as their holders stay and their vnodes exist. */
  lemma FilesFramed(s: State, s': State, ef: nat)
    requires FilesOk(s, ef) && s'.fds == s.fds && s'.handles == s.handles && s'.files == s.files
    requires forall f :: f in s.files ==> s.files[f].vn in s'.vnodes
    ensures FilesOk(s', ef)
  {
    hide Holders;
    forall f | f in s'.files ensures FileOk(s', f, ef) { assert FileOk(s, f, ef); HoldersSame(s, s', f); }
  }

  lemma NodesFramed(s: State, s': State)
    requires NodesOk(s) && s'.nodes == s.nodes && s'.vnodes.Keys == s.vnodes.Keys && forall v ::
          v in s.vnodes ==> s'.vnodes[v].node == s.vnodes[v].node
    ensures NodesOk(s') && (OwnNodes(s) ==> OwnNodes(s'))
  {
    forall n | n in s'.nodes ensures NodeOk(s', n) {
      assert NodeOk(s, n);
      if !Linked(s, n) { var w :| w in s.vnodes && s.vnodes[w].node == n;
            assert w in s'.vnodes && s'.vnodes[w].node == n; }
    }
  }

  lemma HoldersSame(s: State, s': State, f: nat)
    requires s'.fds == s.fds && s'.handles == s.handles
    ensures Holders(s', f) == Holders(s, f)
  {
  }

  lemma UnrefVnodeGone(s: State, v: nat)
    requires Inv(s, 0, v) && CanDropVnode(s, v) && s.vnodes[v].refs == 1
    ensures Inv(UnrefVnode(s, v), 0, 0) && OpenSet(s.files, v) == {} && !Cached(s, v)
  {
    hide Holders;
    assert VnodeOk(s, v, v);
    assert |OpenSet(s.files, v)| == 0;
    GoneFiles(s, v);
    GoneVnodes(s, v);
    GoneNodes(s, v);
  }

  lemma GoneFiles(s: State, v: nat)
    requires Inv(s, 0, v) && CanDropVnode(s, v) && s.vnodes[v].refs == 1 && OpenSet(s.files, v) == {}
    ensures FilesOk(UnrefVnode(s, v), 0)
  {
    hide Holders, NodesOk, OwnNodes, VnodesOk;
    var s' := UnrefVnode(s, v);
    forall f | f in s'.files ensures FileOk(s', f, 0) {
      assert FileOk(s, f, 0);
      HoldersSame(s, s', f);
      OpenNotEmpty(s.files, f);
    }
  }

  lemma GoneVnodes(s: State, v: nat)
    requires Inv(s, 0, v) && CanDropVnode(s, v) && s.vnodes[v].refs == 1
    ensures VnodesOk(UnrefVnode(s, v), 0)
  {
    hide Holders, NodesOk, FilesOk, OpenSet;
    var s' := UnrefVnode(s, v);
    forall w | w in s'.vnodes ensures VnodeOk(s', w, 0) { assert VnodeOk(s, w, v); }
  }

  lemma GoneNodes(s: State, v: nat)
    requires Inv(s, 0, v) && CanDropVnode(s, v) && s.vnodes[v].refs == 1 && !Cached(s, v)
    ensures NodesOk(UnrefVnode(s, v))
  {
    hide Holders, FilesOk, OpenSet;
    var s' := UnrefVnode(s, v);
    forall n | n in s'.nodes ensures NodeOk(s', n) {
      assert NodeOk(s, n);
      if !Linked(s, n) { var w :| w in s.vnodes && s.vnodes[w].node == n;
            assert w in s'.vnodes && s'.vnodes[w].node == n; }
    }
  }

  lemma SlotPut(fds: seq<nat>, i: nat, g: nat, f: nat)
    requires i < |fds| && fds[i] != g
    ensures |SlotSet(fds[i := g], f)| + One(f == fds[i]) == |SlotSet(fds, f)| + One(f == g)
  {
    if f == g {
      SlotAdded(fds, i, g);
    } else if f == fds[i] {
      SlotAdded(fds[i := g], i, f);
      assert fds[i := g][i := f] == fds;
    } else {
      assert SlotSet(fds, f) == SlotSet(fds[i := g], f);
    }
  }

  lemma SlotAdded(fds: seq<nat>, i: nat, f: nat)
    requires i < |fds| && fds[i] != f
    ensures |SlotSet(fds[i := f], f)| == |SlotSet(fds, f)| + 1
  {
    var a, b := SlotSet(fds, f), SlotSet(fds[i := f], f);
    assert b == a + {i} && i !in a;
  }

  lemma HandlePut(handles: map<nat, nat>, h: nat, g: nat, f: nat)
    requires h !in handles
    ensures |HandleSet(handles[h := g], f)| == |HandleSet(handles, f)| + One(f == g)
  {
    var a, b := HandleSet(handles, f), HandleSet(handles[h := g], f);
    if f == g { assert b == a + {h} && h !in a; } else { assert a == b; }
  }

  lemma HandleDrop(handles: map<nat, nat>, h: nat, f: nat)
    requires h in handles
    ensures |HandleSet(handles - {h}, f)| + One(f == handles[h]) == |HandleSet(handles, f)|
  {
    var a, b := HandleSet(handles, f), HandleSet(handles - {h}, f);
    if f == handles[h] { assert b == a - {h} && h in a; } else { assert a == b; }
  }

  lemma OpenPut(files: map<nat, File>, f: nat, file: File, w: nat)
    requires f !in files
    ensures |OpenSet(files[f := file], w)| == |OpenSet(files, w)| + One(w == file.vn)
  {
    var a, b := OpenSet(files, w), OpenSet(files[f := file], w);
    if w == file.vn { assert b == a + {f} && f !in a; } else { assert a == b; }
  }

  lemma OpenDrop(files: map<nat, File>, f: nat, w: nat)
    requires f in files
    ensures |OpenSet(files - {f}, w)| + One(w == files[f].vn) == |OpenSet(files, w)|
  {
    var a, b := OpenSet(files, w), OpenSet(files - {f}, w);
    if w == files[f].vn { assert b == a - {f} && f in a; } else { assert a == b; }
  }

  lemma OpenSame(files: map<nat, File>, f: nat, file: File, w: nat)
    requires f in files && file.vn == files[f].vn
    ensures OpenSet(files[f := file], w) == OpenSet(files, w)
  {
  }

  /** The vnodes' books depend on the files' vnodes and the nodes' caches only. */
  lemma VnodesFramed(s: State, s': State, ev: nat)
    requires VnodesOk(s, ev) && s'.vnodes == s.vnodes && s'.nodes == s.nodes
        && forall v :: OpenSet(s'.files, v) == OpenSet(s.files, v)
    ensures VnodesOk(s', ev)
  {
    hide OpenSet;
    forall v | v in s'.vnodes ensures VnodeOk(s', v, ev) { assert VnodeOk(s, v, ev); }
  }

  /** A file's extra reference is dropped: the count goes down, or the file goes and its vnode loses one. */
  lemma UnrefFileInv(s: State, f: nat)
    requires Inv(s, f, 0) && CanDrop(s, f)
    ensures Inv(UnrefFile(s, f), 0, 0) && (f in UnrefFile(s, f).files <==> Holders(s, f) > 0)
  {
    hide Shape, VnodesOk, NodesOk, OwnNodes, Holders, UnrefVnode;
    assert FileOk(s, f, f);
    if s.files[f].refs > 1 {
      UnrefFileKept(s, f);
    } else {
      LastUnref(s, f);
      var s1 := s.(files := s.files - {f});
      UnrefVnodeInv(s1, s.files[f].vn);
      UnrefVnodeFiles(s1, s.files[f].vn);
      LogInv(UnrefVnode(s1, s.files[f].vn), [f]);
    }
  }

  /** The books do not look at what was freed. */
  lemma LogInv(s: State, more: seq<nat>)
    requires Inv(s, 0, 0)
    ensures Inv(s.(freed := s.freed + more), 0, 0)
  {
    hide FilesOk, VnodesOk, NodesOk;
    var s' := s.(freed := s.freed + more);
    FilesHaveVnodes(s, 0);
    FilesFramed(s, s', 0);
    VnodesFramed(s, s', 0);
    SameNodes(s, s');
  }

  lemma UnrefVnodeFiles(s: State, v: nat)
    requires CanDropVnode(s, v)
    ensures UnrefVnode(s, v).files == s.files && UnrefVnode(s, v).fds == s.fds && UnrefVnode(s, v).handles == s.handles
  {
  }

  lemma UnrefFileKept(s: State, f: nat)
    requires Inv(s, f, 0) && CanDrop(s, f) && s.files[f].refs > 1
    ensures Inv(UnrefFile(s, f), 0, 0)
  {
    hide NodesOk, VnodesOk, FilesOk;
    var s' := UnrefFile(s, f);
    forall v ensures OpenSet(s'.files, v) == OpenSet(s.files, v) { OpenSame(s.files, f, s'.files[f], v); }
    VnodesFramed(s, s', 0);
    NodesFramed(s, s');
    KeptFile(s, f);
  }

  lemma KeptFile(s: State, f: nat)
    requires FilesOk(s, f) && CanDrop(s, f) && s.files[f].refs > 1 && 0 !in s.files
    ensures FilesOk(UnrefFile(s, f), 0)
  {
    hide Holders;
    var s' := UnrefFile(s, f);
    forall g | g in s'.files ensures FileOk(s', g, 0) { assert FileOk(s, g, f); HoldersSame(s, s', g); }
  }

  /** Nobody holds a file whose count was one extra reference. */
  lemma NoHolders(s: State, f: nat)
    requires Holders(s, f) == 0
    ensures (forall i :: 0 <= i < |s.fds| ==> s.fds[i] != f) && forall h :: h in s.handles ==> s.handles[h] != f
  {
    forall i | 0 <= i < |s.fds| ensures s.fds[i] != f { assert i !in SlotSet(s.fds, f); }
    forall h | h in s.handles ensures s.handles[h] != f { assert h !in HandleSet(s.handles, f); }
  }

  lemma LastUnref(s: State, f: nat)
    requires Inv(s, f, 0) && f in s.files && s.files[f].refs <= 1
    ensures Inv(s.(files := s.files - {f}), 0, s.files[f].vn) && s.files[f].vn in s.vnodes
  {
    hide NodesOk, OwnNodes, Holders, OpenSet;
    var s' := s.(files := s.files - {f});
    assert FileOk(s, f, f);
    NoHolders(s, f);
    forall g | g in s'.files ensures FileOk(s', g, 0) { assert FileOk(s, g, f); HoldersSame(s, s', g); }
    forall v | v in s'.vnodes ensures VnodeOk(s', v, s.files[f].vn) { assert VnodeOk(s, v, 0);
          OpenDrop(s.files, f, v); }
    SameNodes(s, s');
  }

  lemma SameNodes(s: State, s': State)
    requires NodesOk(s) && OwnNodes(s) && s'.nodes == s.nodes && s'.vnodes == s.vnodes
    ensures NodesOk(s') && OwnNodes(s')
  {
    NodesFramed(s, s');
  }

  /** The file is held by one more: a descriptor. */
  function PutFd(s: State, i: nat, f: nat): State
    requires i < |s.fds| && f in s.files
  {
    s.(fds := s.fds[i := f], files := s.files[f := s.files[f].(refs := s.files[f].refs + 1)])
  }

  function ClearFd(s: State, i: nat): State
    requires i < |s.fds|
  {
    s.(fds := s.fds[i := 0])
  }

  /** vfs_open's end: a new file on vnode v, its one reference in the caller's hand. */
  function NewFile(s: State, v: nat): State
    requires v in s.vnodes
  {
    var f := s.next;
    s.(files := s.files[f := File(v, 1, 0)], handles := s.handles[f := f], next := f + 1,
       vnodes := s.vnodes[v := s.vnodes[v].(refs := s.vnodes[v].refs + 1)])
  }

  lemma PutFdInv(s: State, i: nat, f: nat)
    requires Inv(s, 0, 0) && i < |s.fds| && s.fds[i] == 0 && f in s.files
    ensures Inv(PutFd(s, i, f), 0, 0)
  {
    hide NodesOk, VnodesOk, FilesOk;
    var s' := PutFd(s, i, f);
    forall v ensures OpenSet(s'.files, v) == OpenSet(s.files, v) { OpenSame(s.files, f, s'.files[f], v); }
    VnodesFramed(s, s', 0);
    SameNodes(s, s');
    PutFiles(s, i, f);
  }

  lemma PutFiles(s: State, i: nat, f: nat)
    requires FilesOk(s, 0) && i < |s.fds| && s.fds[i] == 0 && f in s.files && 0 !in s.files
    ensures FilesOk(PutFd(s, i, f), 0)
  {
    hide SlotSet, HandleSet;
    var s' := PutFd(s, i, f);
    forall g | g in s'.files ensures FileOk(s', g, 0) { assert FileOk(s, g, 0); SlotPut(s.fds, i, f, g); }
  }

  /** A descriptor is emptied: its file is left with one reference too many. */
  lemma ClearFdInv(s: State, i: nat)
    requires Inv(s, 0, 0) && i < |s.fds| && s.fds[i] != 0
    ensures Inv(ClearFd(s, i), s.fds[i], 0) && s.fds[i] in s.files
  {
    hide NodesOk, VnodesOk, FilesOk;
    var s' := ClearFd(s, i);
    VnodesFramed(s, s', 0);
    SameNodes(s, s');
    ClearFiles(s, i);
  }

  lemma ClearFiles(s: State, i: nat)
    requires FilesOk(s, 0) && i < |s.fds| && s.fds[i] != 0 && 0 !in s.files
    ensures FilesOk(ClearFd(s, i), s.fds[i])
  {
    hide SlotSet, HandleSet;
    var s' := ClearFd(s, i);
    forall g | g in s'.files ensures FileOk(s', g, s.fds[i]) { assert FileOk(s, g, 0); SlotPut(s.fds, i, 0, g); }
  }

  /** The caller gives its handle back: the file is left with one reference too many. */
  lemma DropHandleInv(s: State, h: nat)
    requires Inv(s, 0, 0) && h in s.handles
    ensures Inv(s.(handles := s.handles - {h}), s.handles[h], 0) && s.handles[h] in s.files
  {
    hide NodesOk, VnodesOk, FilesOk;
    var s' := s.(handles := s.handles - {h});
    VnodesFramed(s, s', 0);
    SameNodes(s, s');
    DropFiles(s, h);
  }

  lemma DropFiles(s: State, h: nat)
    requires FilesOk(s, 0) && h in s.handles && 0 !in s.files
    ensures FilesOk(s.(handles := s.handles - {h}), s.handles[h])
  {
    hide SlotSet, HandleSet;
    var s' := s.(handles := s.handles - {h});
    forall g | g in s'.files ensures FileOk(s', g, s.handles[h]) { assert FileOk(s, g, 0);
          HandleDrop(s.handles, h, g); }
  }

  lemma NewFileInv(s: State, v: nat)
    requires Inv(s, 0, 0) && v in s.vnodes && s.next !in s.files && s.next !in s.handles && s.next != 0
    ensures Inv(NewFile(s, v), 0, 0)
  {
    hide NodesOk, VnodesOk, FilesOk;
    var s' := NewFile(s, v);
    NodesFramed(s, s');
    NewFileVnodes(s, v);
    NewFileFiles(s, v);
  }

  lemma NewFileVnodes(s: State, v: nat)
    requires VnodesOk(s, 0) && v in s.vnodes && s.next !in s.files && 0 !in s.vnodes
    ensures VnodesOk(NewFile(s, v), 0)
  {
    hide OpenSet;
    var s' := NewFile(s, v);
    forall w | w in s'.vnodes ensures VnodeOk(s', w, 0) { assert VnodeOk(s, w, 0);
        OpenPut(s.files, s.next, File(v, 1, 0), w); }
  }

  lemma NewFileFiles(s: State, v: nat)
    requires FilesOk(s, 0) && Shape(s) && v in s.vnodes && s.next !in s.files && s.next !in s.handles && s.next != 0
    ensures FilesOk(NewFile(s, v), 0)
  {
    hide SlotSet, HandleSet;
    var s' := NewFile(s, v);
    forall g | g in s'.files ensures FileOk(s', g, 0) {
      HandlePut(s.handles, s.next, s.next, g);
      if g == s.next { Unheld(s, g); } else { assert FileOk(s, g, 0); }
    }
  }

  lemma Unheld(s: State, f: nat)
    requires Shape(s) && f !in s.files && f != 0
    ensures Holders(s, f) == 0
  {
    assert SlotSet(s.fds, f) == {} && HandleSet(s.handles, f) == {};
  }
}
