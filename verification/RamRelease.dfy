/** Releasing a whole ramfs tree: every node goes, except the ones a file still has open. */
module RamRelease {
  import opened Machine
  import opened Refs
  import opened RamTree
  import opened Ramfs
  import opened RamfsDir
  import opened VfsCalls
  import opened VfsRun

  /** The first child is taken from its directory and held by the release itself. */
  function Orphan(s: State, n: nat): State
    requires n in s.nodes && s.nodes[n].kids != [] && s.nodes[n].kids[0] in s.nodes && s.nodes[n].kids[0] != n
  {
    var c := s.nodes[n].kids[0];
    s.(nodes := s.nodes[n := s.nodes[n].(kids := s.nodes[n].kids[1..])][c := s.nodes[c].(parent := c)])
  }

  /** A root without children goes out of the tree and loses the reference that held it. */
  function DropRoot(s: State, n: nat): State
    requires Good(s) && n in s.nodes
  {
    RootDroppable(s, n);
    Release(s.(nodes := s.nodes[n := s.nodes[n].(parent := 0)]), n)
  }

  lemma RootDroppable(s: State, n: nat)
    requires Good(s) && n in s.nodes
    ensures s.nodes[n].cache != 0 ==>
          CanDropVnode(s.(nodes := s.nodes[n := s.nodes[n].(parent := 0)]), s.nodes[n].cache)
  {
    hide Good;
    if s.nodes[n].cache != 0 { CacheDroppable(s, n); }
  }

  /** Nodes of the same kinds with the same caches and buffers, and the same ones in the tree. */
  ghost predicate Alike(a: Nodes, b: Nodes) {
    a.Keys == b.Keys && forall n ::
          n in a ==>
            && n in b && a[n].cache == b[n].cache && (a[n].parent == 0 <==> b[n].parent == 0)
            && a[n].data == b[n].data && a[n].cap == b[n].cap && a[n].dir == b[n].dir
  }

  lemma AlikeInv(s: State, nodes: Nodes)
    requires Inv(s, 0, 0) && Alike(s.nodes, nodes)
    ensures Inv(s.(nodes := nodes), 0, 0)
  {
    hide FilesOk, VnodesOk, NodesOk;
    var s' := s.(nodes := nodes);
    FilesHaveVnodes(s, 0);
    FilesFramed(s, s', 0);
    AlikeVnodes(s, nodes);
    AlikeNodes(s, nodes);
  }

  lemma AlikeVnodes(s: State, nodes: Nodes)
    requires VnodesOk(s, 0) && Alike(s.nodes, nodes)
    ensures VnodesOk(s.(nodes := nodes), 0)
  {
    hide OpenSet;
    var s' := s.(nodes := nodes);
    forall v | v in s'.vnodes ensures VnodeOk(s', v, 0) { assert VnodeOk(s, v, 0); }
  }

  lemma AlikeNodes(s: State, nodes: Nodes)
    requires NodesOk(s) && Alike(s.nodes, nodes)
    ensures NodesOk(s.(nodes := nodes))
  {
    var s' := s.(nodes := nodes);
    forall n | n in s'.nodes ensures NodeOk(s', n) { assert n in s.nodes && NodeOk(s, n); }
  }

  lemma FirstKid(nodes: Nodes, n: nat)
    requires Tree(nodes) && n in nodes && nodes[n].kids != []
    ensures nodes[n].kids[0] in nodes && n < nodes[n].kids[0] && nodes[nodes[n].kids[0]].parent == n && n != 0
  {
    assert DirOk(nodes, n) && KidOk(nodes, n, nodes[n].kids[0]);
  }

  lemma OrphanTree(s: State, n: nat)
    requires Tree(s.nodes) && n in s.nodes && s.nodes[n].kids != [] && s.nodes[n].kids[0] in s.nodes
        && n < s.nodes[n].kids[0]
    requires s.nodes[s.nodes[n].kids[0]].parent == n
    ensures Tree(Orphan(s, n).nodes)
  {
    hide DirOk, ParentOk;
    var b := Orphan(s, n).nodes;
    forall d | d in b ensures DirOk(b, d) { OrphanDir(s, n, d); }
    forall c | c in b ensures ParentOk(b, c) { OrphanParent(s, n, c); }
  }

  lemma OrphanDir(s: State, n: nat, d: nat)
    requires n in s.nodes && s.nodes[n].kids != [] && s.nodes[n].kids[0] in s.nodes && n < s.nodes[n].kids[0]
    requires d in s.nodes && DirOk(s.nodes, d) && s.nodes[s.nodes[n].kids[0]].parent == n
    ensures DirOk(Orphan(s, n).nodes, d)
  {
    var a, b := s.nodes, Orphan(s, n).nodes;
    var c := a[n].kids[0];
    var k, kids, kids' := One(d == n), a[d].kids, b[d].kids;
    forall i: nat | i < |kids'| ensures KidOk(b, d, kids'[i]) {
      assert kids'[i] == kids[i + k] && KidOk(a, d, kids[i + k]);
      if d == n { assert NamesDiffer(a, kids[0], kids[i + 1]); }
    }
    forall i: nat, j: nat | i < j < |kids'| ensures NamesDiffer(b, kids'[i], kids'[j]) {
      assert kids'[i] == kids[i + k] && kids'[j] == kids[j + k] && NamesDiffer(a, kids[i + k], kids[j + k]);
    }
  }

  lemma OrphanParent(s: State, n: nat, c: nat)
    requires n in s.nodes && s.nodes[n].kids != [] && s.nodes[n].kids[0] in s.nodes && n < s.nodes[n].kids[0]
    requires c in s.nodes && ParentOk(s.nodes, c)
    ensures ParentOk(Orphan(s, n).nodes, c)
  {
    var a, b := s.nodes, Orphan(s, n).nodes;
    if c != a[n].kids[0] && a[c].parent == n && n != c && n != 0 {
      var j: nat :| j < |a[n].kids| && a[n].kids[j] == c;
      assert b[n].kids[j - 1] == c;
    }
  }

  lemma OrphanGood(s: State, n: nat)
    requires Good(s) && n in s.nodes && s.nodes[n].kids != []
    ensures s.nodes[n].kids[0] in s.nodes && n < s.nodes[n].kids[0]
    ensures Good(Orphan(s, n)) && Lasting(s, Orphan(s, n), {})
  {
    hide Inv, Tree, Accounted;
    FirstKid(s.nodes, n);
    OrphanTree(s, n);
    AccountedSame(s, Orphan(s, n));
    assert Alike(s.nodes, Orphan(s, n).nodes);
    AlikeInv(s, Orphan(s, n).nodes);
  }

  /** The state between taking the root out and dropping the reference to its vnode. */
  function CutRoot(s: State, n: nat): State
    requires n in s.nodes
  {
    s.(nodes := s.nodes[n := s.nodes[n].(parent := 0, cache := 0)])
  }

  lemma CutRootTree(nodes: Nodes, n: nat, node: Node)
    requires Tree(nodes) && n in nodes && nodes[n].parent == n && nodes[n].kids == []
    requires node.name == nodes[n].name && node.parent == 0 && node.kids == []
    ensures Tree(nodes[n := node]) && !InTree(nodes[n := node], n)
  {
    var b := nodes[n := node];
    forall d | d in b ensures DirOk(b, d) { CutRootDir(nodes, n, node, d); }
    forall c | c in b ensures ParentOk(b, c) { assert ParentOk(nodes, c); }
  }

  lemma CutRootDir(nodes: Nodes, n: nat, node: Node, d: nat)
    requires n in nodes && nodes[n].parent == n && node.name == nodes[n].name && node.kids == []
    requires d in nodes && DirOk(nodes, d)
    ensures DirOk(nodes[n := node], d)
  {
    var b := nodes[n := node];
    if d != n {
      var kids := nodes[d].kids;
      forall i: nat | i < |kids| ensures KidOk(b, d, kids[i]) { assert KidOk(nodes, d, kids[i]); }
      forall i: nat, j: nat | i < j < |kids|
          ensures NamesDiffer(b, kids[i], kids[j]) { assert NamesDiffer(nodes, kids[i], kids[j]); }
    }
  }

  lemma CutRootInv(s: State, n: nat)
    requires Inv(s, 0, 0) && n in s.nodes && s.nodes[n].cache != 0
    ensures Inv(CutRoot(s, n), 0, s.nodes[n].cache) && s.nodes[n].cache in s.vnodes
        && s.vnodes[s.nodes[n].cache].node == n
  {
    hide FilesOk, VnodesOk, NodesOk;
    var s' := CutRoot(s, n);
    HasVnode(s, n);
    FilesHaveVnodes(s, 0);
    FilesFramed(s, s', 0);
    CutRootVnodes(s, n);
    CutRootNodes(s, n);
  }

  lemma CutRootVnodes(s: State, n: nat)
    requires Shape(s) && VnodesOk(s, 0) && OwnNodes(s) && n in s.nodes && s.nodes[n].cache in s.vnodes
        && s.vnodes[s.nodes[n].cache].node == n
    ensures VnodesOk(CutRoot(s, n), s.nodes[n].cache)
  {
    hide OpenSet;
    var s' := CutRoot(s, n);
    forall w | w in s'.vnodes ensures VnodeOk(s', w, s.nodes[n].cache) { assert VnodeOk(s, w, 0); }
  }

  lemma CutRootNodes(s: State, n: nat)
    requires NodesOk(s) && n in s.nodes && s.nodes[n].cache in s.vnodes && s.vnodes[s.nodes[n].cache].node == n
    ensures NodesOk(CutRoot(s, n))
  {
    var s' := CutRoot(s, n);
    forall m | m in s'.nodes ensures NodeOk(s', m) {
      assert NodeOk(s, m);
      if m == n { assert s.nodes[n].cache in s'.vnodes; }
    }
  }

  lemma BareInv(s: State, n: nat)
    requires Inv(s, 0, 0) && Linked(s, n) && s.nodes[n].cache == 0
    ensures Inv(s.(nodes := s.nodes - {n}), 0, 0)
  {
    hide FilesOk, VnodesOk, NodesOk;
    var s' := s.(nodes := s.nodes - {n});
    NoVnode(s, n);
    FilesHaveVnodes(s, 0);
    FilesFramed(s, s', 0);
    BareVnodes(s, n);
    BareNodes(s, n);
  }

  lemma BareVnodes(s: State, n: nat)
    requires VnodesOk(s, 0) && forall v :: v in s.vnodes ==> s.vnodes[v].node != n
    ensures VnodesOk(s.(nodes := s.nodes - {n}), 0)
  {
    hide OpenSet;
    var s' := s.(nodes := s.nodes - {n});
    forall w | w in s'.vnodes ensures VnodeOk(s', w, 0) { assert VnodeOk(s, w, 0); }
  }

  lemma BareNodes(s: State, n: nat)
    requires NodesOk(s)
    ensures NodesOk(s.(nodes := s.nodes - {n}))
  {
    var s' := s.(nodes := s.nodes - {n});
    forall m | m in s'.nodes ensures NodeOk(s', m) { assert NodeOk(s, m); }
  }

  /** What dropping one root leaves. */
  ghost predicate Dropped(s: State, n: nat, s': State) {
    && Good(s') && Lasting(s, s', {}) && RootsKept(s, s') && !Linked(s', n)
    && s'.fds == s.fds && s'.handles == s.handles && s'.files == s.files && s'.next == s.next
    && forall m :: m in s.nodes && m != n ==> m in s'.nodes && s'.nodes[m] == s.nodes[m]
  }

  lemma DropCached(s: State, n: nat)
    requires Good(s) && n in s.nodes && s.nodes[n].parent == n && s.nodes[n].kids == [] && s.nodes[n].cache != 0
    ensures CanDropVnode(CutRoot(s, n), s.nodes[n].cache) && Dropped(s, n, UnrefVnode(CutRoot(s, n), s.nodes[n].cache))
  {
    hide Inv, Tree, UnrefVnode, Has, Accounted;
    var v := s.nodes[n].cache;
    var t := CutRoot(s, n);
    CutRootInv(s, n);
    CutRootTree(s.nodes, n, t.nodes[n]);
    AccountedSame(s, t);
    DroppableVnode(t, v);
    UnrefVnodeGood(t, v);
    UnrefVnodeFiles(t, v);
    UnrefVnodeSame(t, v);
  }

  lemma DropBare(s: State, n: nat)
    requires Good(s) && n in s.nodes && s.nodes[n].parent == n && s.nodes[n].kids == [] && s.nodes[n].cache == 0
    ensures Dropped(s, n, s.(nodes := s.nodes - {n}, freed := s.freed + [n]))
  {
    hide Inv, Tree, Accounted;
    var b := s.nodes[n := s.nodes[n].(parent := 0)];
    Nonzero(s.nodes);
    BareInv(s, n);
    LogInv(s.(nodes := s.nodes - {n}), [n]);
    DropAccounted(s, b, n);
    CutRootTree(s.nodes, n, b[n]);
    TreeDrop(b, n);
    assert b - {n} == s.nodes - {n};
  }

  lemma Nonzero(nodes: Nodes)
    requires Tree(nodes)
    ensures 0 !in nodes
  {
  }

  lemma DropRootGood(s: State, n: nat)
    requires Good(s) && n in s.nodes && s.nodes[n].parent == n && s.nodes[n].kids == []
    ensures Dropped(s, n, DropRoot(s, n))
  {
    hide Good, Dropped, UnrefVnode;
    RootDroppable(s, n);
    var b := s.nodes[n := s.nodes[n].(parent := 0)];
    if s.nodes[n].cache != 0 {
      DropCached(s, n);
      assert s.(nodes := b[n := b[n].(cache := 0)]) == CutRoot(s, n);
    } else {
      DropBare(s, n);
      assert b - {n} == s.nodes - {n};
    }
  }

  /** With no root left, no node is in a tree: following parents down would never end. */
  lemma {:induction false} NoRoots(nodes: Nodes, m: nat)
    requires Tree(nodes) && forall n :: n in nodes ==> nodes[n].parent != n
    ensures !InTree(nodes, m)
    decreases m
  {
    if InTree(nodes, m) {
      var p := nodes[m].parent;
      assert ParentOk(nodes, m);
      var i: nat :| i < |nodes[p].kids| && nodes[p].kids[i] == m;
      assert DirOk(nodes, p) && KidOk(nodes, p, nodes[p].kids[i]);
      NoRoots(nodes, p);
    }
  }

  /** After the only tree is released, exactly the nodes that files have open are left. */
  lemma OnlyOpenLeft(s: State)
    requires Good(s) && forall n :: n in s.nodes ==> s.nodes[n].parent != n
    ensures forall n :: n in s.nodes <==> IsOpen(s, n)
    ensures forall v :: v in s.vnodes ==> s.vnodes[v].refs == |OpenSet(s.files, v)|
  {
    hide Inv, Tree, IsOpen, OpenSet;
    GoodBooks(s);
    forall n ensures !Linked(s, n) { NoRoots(s.nodes, n); }
    forall n | IsOpen(s, n) ensures n in s.nodes { OpenAlive(s, n); }
  }

  lemma OpenAlive(s: State, n: nat)
    requires Books(s) && IsOpen(s, n)
    ensures n in s.nodes
  {
    hide Holders, OpenSet;
    var f :| f in s.files && s.files[f].vn in s.vnodes && s.vnodes[s.files[f].vn].node == n;
  }
}
