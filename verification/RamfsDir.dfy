/** Creating and unlinking ramfs nodes: the directory map and the reference books change together. */
module RamfsDir {
  import opened Machine
  import opened Refs
  import opened RamTree
  import opened Ramfs

  predicate BadName(name: string) { name == "" || '/' in name || name == "." || name == ".." }

  /** A new node in the tree, not yet with a vnode. */
  function LinkNew(s: State, d: nat, name: string, dir: bool): State
    requires d in s.nodes
  {
    s.(nodes := Link(s.nodes, d, s.next, Node(name, dir, d, [], 0, [], 0)), next := s.next + 1)
  }

  /** ramfs_create_vn. */
  function Create(s: State, dv: nat, name: string, dir: bool, mem: Memory): Out {
    if dv !in s.vnodes || s.vnodes[dv].node !in s.nodes then Out(s, Err(InvalidArgument))
    else
      var d := s.vnodes[dv].node;
      if !s.nodes[d].dir then Out(s, Err(NotDirectory))
      else if BadName(name) then Out(s, Err(InvalidArgument))
      else if FirstNamed(s.nodes, s.nodes[d].kids, name) < |s.nodes[d].kids| then Out(s, Err(AlreadyExists))
      else if !mem(s.next) || !mem(s.next + 1) then Out(s, Err(OutOfMemory))
      else Out(AddVnode(LinkNew(s, d, name, dir), s.next), Ok(s.next + 1))
  }

  lemma LinkNewInv(s: State, d: nat, name: string, dir: bool)
    requires Inv(s, 0, 0) && d in s.nodes && s.next !in s.nodes && s.next != 0 && d != 0
    ensures Inv(LinkNew(s, d, name, dir), 0, 0)
  {
    hide FilesOk, VnodesOk, NodesOk;
    var s' := LinkNew(s, d, name, dir);
    FilesHaveVnodes(s, 0);
    FilesFramed(s, s', 0);
    LinkNewVnodes(s, d, name, dir);
    LinkNewNodes(s, d, name, dir);
  }

  lemma LinkNewVnodes(s: State, d: nat, name: string, dir: bool)
    requires VnodesOk(s, 0) && d in s.nodes && s.next !in s.nodes
    ensures VnodesOk(LinkNew(s, d, name, dir), 0)
  {
    hide OpenSet;
    var s' := LinkNew(s, d, name, dir);
    forall v | v in s'.vnodes ensures VnodeOk(s', v, 0) { assert VnodeOk(s, v, 0); }
  }

  lemma LinkNewNodes(s: State, d: nat, name: string, dir: bool)
    requires NodesOk(s) && d in s.nodes && s.next !in s.nodes && d != 0
    ensures NodesOk(LinkNew(s, d, name, dir))
  {
    var s' := LinkNew(s, d, name, dir);
    forall n | n in s'.nodes ensures NodeOk(s', n) {
      if n != s.next { assert NodeOk(s, n); }
    }
  }

  lemma LinkNewGood(s: State, d: nat, name: string, dir: bool)
    requires Good(s) && Linked(s, d) && s.nodes[d].dir && forall c :: !Has(s.nodes, d, name, c)
    ensures Good(LinkNew(s, d, name, dir)) && Kept(s, LinkNew(s, d, name, dir), {})
        && Linked(LinkNew(s, d, name, dir), s.next)
  {
    hide Inv, Tree, Accounted;
    NotZero(s);
    AccountedMade(s, LinkNew(s, d, name, dir));
    LinkNewInv(s, d, name, dir);
    LinkTree(s.nodes, d, s.next, Node(name, dir, d, [], 0, [], 0));
  }

  lemma NotZero(s: State)
    requires Good(s)
    ensures 0 !in s.nodes && 0 !in s.vnodes && 0 !in s.files && |s.fds| == TABLES * FD_MAX
  {
    hide Accounted;
  }

  /** No node is lost, and each keeps its kind and its parent. */
  ghost predicate Grown(a: Nodes, b: Nodes) { forall m ::
        m in a ==> m in b && b[m].dir == a[m].dir && b[m].parent == a[m].parent }

  /** What a successful create does: one name more in one directory, held by a new vnode of a new node. */
  ghost predicate Made(s: State, d: nat, name: string, dir: bool, o: Out) {
    && o.r.Ok? && Good(o.s) && Kept(s, o.s, {}) && o.s.fds == s.fds && o.s.handles == s.handles && o.s.files == s.files
    && o.r.value in o.s.vnodes && o.r.value !in s.vnodes && o.s.vnodes[o.r.value].node == s.next && Linked(o.s, s.next)
        && s.next !in s.nodes
    && o.s.nodes[s.next].dir == dir && o.s.nodes[s.next].data == [] && Grown(s.nodes, o.s.nodes)
    && forall e, x, c :: Has(o.s.nodes, e, x, c) <==> Has(s.nodes, e, x, c) || (e == d && x == name && c == s.next)
  }

  /** Create succeeds exactly in a directory that lacks the name, for a proper name, given memory. */
  lemma CreateIs(s: State, dv: nat, name: string, dir: bool, mem: Memory)
    requires Good(s) && dv in s.vnodes && Linked(s, s.vnodes[dv].node)
    ensures var d := s.vnodes[dv].node; var o := Create(s, dv, name, dir, mem);
            && (o.r.Ok? <==>
                  s.nodes[d].dir && !BadName(name) && (forall c :: !Has(s.nodes, d, name, c)) && mem(s.next)
                  && mem(s.next + 1))
            && (o.r.Ok? ==> Made(s, d, name, dir, o)) && (o.r.Err? ==> o.s == s)
    ensures var d := s.vnodes[dv].node; var r := Create(s, dv, name, dir, mem).r;
            r.Err? ==> r == Err(if !s.nodes[d].dir then NotDirectory else if BadName(name) then InvalidArgument
                                else if exists c :: Has(s.nodes, d, name, c) then AlreadyExists else OutOfMemory)
  {
    hide Good, Made, Tree, Has;
    var d := s.vnodes[dv].node;
    var o := Create(s, dv, name, dir, mem);
    var i := FirstNamed(s.nodes, s.nodes[d].kids, name);
    Stays(s, dv);
    forall e ensures Has(s.nodes, d, name, e) <==>
          i < |s.nodes[d].kids| && s.nodes[d].kids[i] == e { FindIsHas(s.nodes, d, name, e); }
    assert i < |s.nodes[d].kids| ==> Has(s.nodes, d, name, s.nodes[d].kids[i]);
    if o.r.Ok? { CreateMade(s, d, name, dir); }
  }

  lemma CreateMade(s: State, d: nat, name: string, dir: bool)
    requires Good(s) && Linked(s, d) && s.nodes[d].dir && forall c :: !Has(s.nodes, d, name, c)
    ensures Made(s, d, name, dir, Out(AddVnode(LinkNew(s, d, name, dir), s.next), Ok(s.next + 1)))
  {
    hide Good, Inv, Tree, Kept, Has;
    var t := LinkNew(s, d, name, dir);
    var u := AddVnode(t, s.next);
    var n := Node(name, dir, d, [], 0, [], 0);
    LinkNewGood(s, d, name, dir);
    New(s);
    AddVnodeGood(t, s.next);
    var none: set<nat> := {};
    KeptTrans(s, t, u, none, none);
    assert none + none == none;
    forall e, x, c ensures Has(u.nodes, e, x, c) <==> Has(s.nodes, e, x, c) || (e == d && x == name && c == s.next) {
      LinkHas(s.nodes, d, s.next, n, e, x, c);
      HasSame(t.nodes, u.nodes, e, x, c);
    }
  }

  lemma HasSame(a: Nodes, b: Nodes, e: nat, x: string, c: nat)
    requires SameTree(a, b)
    ensures Has(a, e, x, c) <==> Has(b, e, x, c)
  {
    assert e in a <==> e in b;
    assert c in a <==> c in b;
  }

  lemma New(s: State)
    requires Good(s)
    ensures s.next !in s.nodes && s.next !in s.vnodes && s.next + 1 !in s.vnodes && s.next !in s.files
        && s.next !in s.handles && s.next > ROOT && Tree(s.nodes)
  {
    hide Inv, Tree, Accounted;
  }

  /** ramfs_node_release: the tree's reference goes, or the node itself when it never had a vnode. */
  function Release(s: State, n: nat): State
    requires n in s.nodes && (s.nodes[n].cache != 0 ==> CanDropVnode(s, s.nodes[n].cache))
  {
    var v := s.nodes[n].cache;
    if v != 0 then UnrefVnode(s.(nodes := s.nodes[n := s.nodes[n].(cache := 0)]), v)
    else s.(nodes := s.nodes - {n}, freed := s.freed + [n])
  }

  /** A node's cached vnode is live and referenced. */
  lemma CacheDroppable(s: State, n: nat)
    requires Good(s) && n in s.nodes && s.nodes[n].cache != 0
    ensures CanDropVnode(s, s.nodes[n].cache) && s.vnodes[s.nodes[n].cache].node == n
  {
    hide FilesOk, OpenSet, Tree, Accounted, Issued;
    assert NodeOk(s, n) && VnodeOk(s, s.nodes[n].cache, 0);
  }

  lemma UnlinkDroppable(s: State, d: nat, i: nat)
    requires Good(s) && d in s.nodes && i < |s.nodes[d].kids| && s.nodes[d].kids[i] in s.nodes
        && s.nodes[d].kids[i] != d
    ensures var t, c := s.(nodes := Detach(s.nodes, d, i)), s.nodes[d].kids[i];
          c in t.nodes && (t.nodes[c].cache != 0 ==> CanDropVnode(t, t.nodes[c].cache))
  {
    hide Good;
    var c := s.nodes[d].kids[i];
    if s.nodes[c].cache != 0 { CacheDroppable(s, c); }
  }

  /** ramfs_unlink_vn. */
  function Unlink(s: State, dv: nat, name: string): Out
    requires Good(s)
  {
    if dv !in s.vnodes || s.vnodes[dv].node !in s.nodes then Out(s, Err(InvalidArgument))
    else
      var d := s.vnodes[dv].node;
      if !s.nodes[d].dir then Out(s, Err(NotDirectory))
      else if name == "" || name == "." || name == ".." then Out(s, Err(InvalidArgument))
      else
        var i := FirstNamed(s.nodes, s.nodes[d].kids, name);
        if i == |s.nodes[d].kids| then Out(s, Err(NotFound))
        else
          var c := s.nodes[d].kids[i];
          if c !in s.nodes || s.nodes[c].kids != [] then Out(s, Err(DirectoryNotEmpty))
          else
            UnlinkDroppable(s, d, i);
            Out(Release(s.(nodes := Detach(s.nodes, d, i)), c), Ok(0))
  }

  /** The state between taking the child out and dropping the tree's reference to its vnode. */
  function Cut(s: State, d: nat, i: nat): State
    requires d in s.nodes && i < |s.nodes[d].kids| && s.nodes[d].kids[i] in s.nodes && s.nodes[d].kids[i] != d
  {
    var n := s.nodes[d].kids[i];
    var b := Detach(s.nodes, d, i);
    s.(nodes := b[n := b[n].(cache := 0)])
  }

  lemma CutInv(s: State, d: nat, i: nat)
    requires Inv(s, 0, 0) && Tree(s.nodes) && Leaf(s.nodes, d, i) && s.nodes[s.nodes[d].kids[i]].cache != 0
    ensures Inv(Cut(s, d, i), 0, s.nodes[s.nodes[d].kids[i]].cache)
    ensures var v := s.nodes[s.nodes[d].kids[i]].cache; v in s.vnodes && s.vnodes[v].node == s.nodes[d].kids[i]
  {
    hide FilesOk, VnodesOk, NodesOk, Tree;
    LeafIs(s.nodes, d, i);
    var n := s.nodes[d].kids[i];
    var s' := Cut(s, d, i);
    HasVnode(s, n);
    FilesHaveVnodes(s, 0);
    FilesFramed(s, s', 0);
    CutVnodes(s, d, i);
    CutNodes(s, d, i);
  }

  lemma HasVnode(s: State, n: nat)
    requires NodesOk(s) && n in s.nodes && s.nodes[n].cache != 0
    ensures s.nodes[n].cache in s.vnodes && s.vnodes[s.nodes[n].cache].node == n
  {
    assert NodeOk(s, n);
  }

  lemma CutVnodes(s: State, d: nat, i: nat)
    requires Shape(s) && VnodesOk(s, 0) && OwnNodes(s) && Leaf(s.nodes, d, i)
    requires var v := s.nodes[s.nodes[d].kids[i]].cache; v in s.vnodes && s.vnodes[v].node == s.nodes[d].kids[i]
    ensures VnodesOk(Cut(s, d, i), s.nodes[s.nodes[d].kids[i]].cache)
  {
    hide OpenSet;
    var n := s.nodes[d].kids[i];
    var v := s.nodes[n].cache;
    var s' := Cut(s, d, i);
    forall w | w in s'.vnodes ensures VnodeOk(s', w, v) { assert VnodeOk(s, w, 0); }
  }

  lemma CutNodes(s: State, d: nat, i: nat)
    requires NodesOk(s) && Leaf(s.nodes, d, i)
    requires var v := s.nodes[s.nodes[d].kids[i]].cache; v in s.vnodes && s.vnodes[v].node == s.nodes[d].kids[i]
    ensures NodesOk(Cut(s, d, i))
  {
    var n := s.nodes[d].kids[i];
    var s' := Cut(s, d, i);
    forall m | m in s'.nodes ensures NodeOk(s', m) {
      assert NodeOk(s, m);
      if m == n { assert s.nodes[n].cache in s'.vnodes; }
    }
  }

  /** A child that never had a vnode goes at once. */
  lemma DropInv(s: State, d: nat, i: nat)
    requires Inv(s, 0, 0) && Tree(s.nodes) && Leaf(s.nodes, d, i) && s.nodes[s.nodes[d].kids[i]].cache == 0
    ensures Inv(s.(nodes := Detach(s.nodes, d, i) - {s.nodes[d].kids[i]}), 0, 0)
  {
    hide FilesOk, VnodesOk, NodesOk, Tree;
    LeafIs(s.nodes, d, i);
    var n := s.nodes[d].kids[i];
    var s' := s.(nodes := Detach(s.nodes, d, i) - {n});
    NoVnode(s, n);
    FilesHaveVnodes(s, 0);
    FilesFramed(s, s', 0);
    DropVnodes(s, d, i);
    DropNodes(s, d, i);
  }

  lemma DropVnodes(s: State, d: nat, i: nat)
    requires VnodesOk(s, 0) && Leaf(s.nodes, d, i) && forall v ::
          v in s.vnodes ==> s.vnodes[v].node != s.nodes[d].kids[i]
    ensures VnodesOk(s.(nodes := Detach(s.nodes, d, i) - {s.nodes[d].kids[i]}), 0)
  {
    hide OpenSet;
    var s' := s.(nodes := Detach(s.nodes, d, i) - {s.nodes[d].kids[i]});
    forall w | w in s'.vnodes ensures VnodeOk(s', w, 0) { assert VnodeOk(s, w, 0); }
  }

  lemma DropNodes(s: State, d: nat, i: nat)
    requires NodesOk(s) && Leaf(s.nodes, d, i)
    ensures NodesOk(s.(nodes := Detach(s.nodes, d, i) - {s.nodes[d].kids[i]}))
  {
    var s' := s.(nodes := Detach(s.nodes, d, i) - {s.nodes[d].kids[i]});
    forall m | m in s'.nodes ensures NodeOk(s', m) { assert NodeOk(s, m); }
  }

  lemma HasDrop(nodes: Nodes, n: nat, e: nat, x: string, c: nat)
    requires Tree(nodes) && n in nodes && !InTree(nodes, n)
    ensures Has(nodes - {n}, e, x, c) <==> Has(nodes, e, x, c)
  {
    hide Tree;
    if Has(nodes, e, x, c) { HasInTree(nodes, e, x, c); OutOfTree(nodes, n); }
  }

  lemma OutOfTree(nodes: Nodes, n: nat)
    requires Tree(nodes) && n in nodes && !InTree(nodes, n)
    ensures nodes[n].kids == []
  {
    assert DirOk(nodes, n);
  }

  /** A node is open when some file's vnode stands for it. */
  ghost predicate IsOpen(s: State, n: nat) {
    exists f :: f in s.files && s.files[f].vn in s.vnodes && s.vnodes[s.files[f].vn].node == n
  }

  /** What a successful unlink does: one name fewer, and the node stays just as long as a file has it open. */
  ghost predicate Taken(s: State, d: nat, n: nat, s': State) {
    && Good(s') && Kept(s, s', {}) && s'.fds == s.fds && s'.handles == s.handles && s'.files == s.files && n in s.nodes
    && (n in s'.nodes <==> IsOpen(s, n))
    && forall e, x, c :: Has(s'.nodes, e, x, c) <==> Has(s.nodes, e, x, c) && !(e == d && c == n)
  }

  /** The tree and the names after the child is cut out, its cached vnode forgotten. */
  lemma CutTree(s: State, d: nat, i: nat)
    requires Tree(s.nodes) && Leaf(s.nodes, d, i)
    ensures var n := s.nodes[d].kids[i];
          Tree(Cut(s, d, i).nodes) && !InTree(Cut(s, d, i).nodes, n) && n in Cut(s, d, i).nodes
  {
    hide Tree;
    DetachTree(s.nodes, d, i);
    TreeFramed(Detach(s.nodes, d, i), Cut(s, d, i).nodes);
  }

  lemma CutHas(s: State, d: nat, i: nat, e: nat, x: string, c: nat)
    requires Tree(s.nodes) && Leaf(s.nodes, d, i)
    ensures Has(Cut(s, d, i).nodes, e, x, c) <==> Has(s.nodes, e, x, c) && !(e == d && c == s.nodes[d].kids[i])
  {
    hide Tree, Has;
    DetachHas(s.nodes, d, i, e, x, c);
    HasSame(Detach(s.nodes, d, i), Cut(s, d, i).nodes, e, x, c);
  }

  lemma OpenIs(s: State, v: nat)
    requires v in s.vnodes && OwnNodes(s)
    ensures IsOpen(s, s.vnodes[v].node) <==> OpenSet(s.files, v) != {}
  {
    if OpenSet(s.files, v) != {} { var f :| f in OpenSet(s.files, v); assert f in s.files && s.files[f].vn == v; }
    if IsOpen(s, s.vnodes[v].node) {
      var f :| f in s.files && s.files[f].vn in s.vnodes && s.vnodes[s.files[f].vn].node == s.vnodes[v].node;
      assert f in OpenSet(s.files, v);
    }
  }

  /** The nodes left by dropping a vnode whose node is out of the tree. */
  lemma UnrefTree(s: State, v: nat)
    requires Tree(s.nodes) && CanDropVnode(s, v) && !InTree(s.nodes, s.vnodes[v].node)
    ensures Tree(UnrefVnode(s, v).nodes)
    ensures forall e, x, c :: Has(UnrefVnode(s, v).nodes, e, x, c) <==> Has(s.nodes, e, x, c)
    ensures UnrefVnode(s, v).nodes == s.nodes || UnrefVnode(s, v).nodes == s.nodes - {s.vnodes[v].node}
  {
    hide Tree, Has;
    var n := s.vnodes[v].node;
    TreeDrop(s.nodes, n);
    forall e, x, c ensures Has(s.nodes - {n}, e, x, c) <==> Has(s.nodes, e, x, c) { HasDrop(s.nodes, n, e, x, c); }
  }

  lemma CutKept(s: State, d: nat, i: nat, v: nat)
    requires Issued(s) && Leaf(s.nodes, d, i) && s.nodes[d].kids[i] != 0 && CanDropVnode(s, v)
    ensures CanDropVnode(Cut(s, d, i), v)
    ensures Issued(UnrefVnode(Cut(s, d, i), v)) && Kept(s, UnrefVnode(Cut(s, d, i), v), {})
  {
    hide UnrefVnode;
    UnrefVnodeSame(Cut(s, d, i), v);
    UnrefVnodeFiles(Cut(s, d, i), v);
  }

  /** Freeing a vnode and its node, or neither, keeps the account. */
  lemma UnrefVnodeAccounted(s: State, v: nat)
    requires CanDropVnode(s, v) && Accounted(s) && Issued(s) && 0 !in s.vnodes && 0 !in s.nodes
    ensures Accounted(UnrefVnode(s, v))
  {
    hide Once;
    var u := UnrefVnode(s, v);
    if s.vnodes[v].refs > 1 {
      AccountedSame(s, u);
    } else {
      var n := s.vnodes[v].node;
      var t := s.(nodes := s.nodes - {n}, freed := s.freed + [n]);
      assert s.files - {n} == s.files && s.vnodes - {n} == s.vnodes;
      AccountedFreed(s, t, n);
      assert t.files - {v} == t.files && t.nodes - {v} == t.nodes;
      AccountedFreed(t, t.(vnodes := t.vnodes - {v}, freed := t.freed + [v]), v);
      assert s.freed + [n, v] == s.freed + [n] + [v];
    }
  }

  lemma CutAccounted(s: State, d: nat, i: nat)
    requires Accounted(s) && d in s.nodes && i < |s.nodes[d].kids| && s.nodes[d].kids[i] in s.nodes
        && s.nodes[d].kids[i] != d
    ensures Accounted(Cut(s, d, i)) && (Issued(s) ==> Issued(Cut(s, d, i)))
  {
    hide Accounted;
    AccountedSame(s, Cut(s, d, i));
  }

  lemma TakenCached(s: State, d: nat, i: nat)
    requires Good(s) && Leaf(s.nodes, d, i) && s.nodes[s.nodes[d].kids[i]].cache != 0
    ensures CanDropVnode(Cut(s, d, i), s.nodes[s.nodes[d].kids[i]].cache)
    ensures Taken(s, d, s.nodes[d].kids[i], UnrefVnode(Cut(s, d, i), s.nodes[s.nodes[d].kids[i]].cache))
  {
    hide Inv, Tree, Has, OpenSet, UnrefVnode, IsOpen, Issued, Kept, Accounted;
    var n := s.nodes[d].kids[i];
    CacheDroppable(s, n);
    NotZero(s);
    CutAccounted(s, d, i);
    CutKept(s, d, i, s.nodes[n].cache);
    UnrefVnodeAccounted(Cut(s, d, i), s.nodes[n].cache);
    var v := s.nodes[n].cache;
    var t := Cut(s, d, i);
    var u := UnrefVnode(t, v);
    LeafIs(s.nodes, d, i);
    CutInv(s, d, i);
    CutTree(s, d, i);
    UnrefTree(t, v);
    UnrefVnodeInv(t, v);
    UnrefVnodeFiles(t, v);
    UnrefVnodeSame(t, v);
    forall e, x, c ensures Has(u.nodes, e, x, c) <==>
          Has(s.nodes, e, x, c) && !(e == d && c == n) { CutHas(s, d, i, e, x, c); }
    OwnedIn(s);
    OpenIs(s, v);
    assert n in u.nodes <==> v in u.vnodes;
  }

  lemma OwnedIn(s: State)
    requires Good(s)
    ensures OwnNodes(s)
  {
  }

  /** Dropping a vnode reference makes nothing and renames nothing. */
  lemma UnrefVnodeSame(s: State, v: nat)
    requires CanDropVnode(s, v)
    ensures UnrefVnode(s, v).next == s.next && s.freed <= UnrefVnode(s, v).freed
        && (v in UnrefVnode(s, v).vnodes <==> s.vnodes[v].refs > 1)
    ensures UnrefVnode(s, v).nodes == if v in UnrefVnode(s, v).vnodes then s.nodes else s.nodes - {s.vnodes[v].node}
    ensures forall w ::
          w in UnrefVnode(s, v).vnodes ==> w in s.vnodes && UnrefVnode(s, v).vnodes[w].node == s.vnodes[w].node
  {
  }

  lemma TakenBare(s: State, d: nat, i: nat)
    requires Good(s) && Leaf(s.nodes, d, i) && s.nodes[s.nodes[d].kids[i]].cache == 0
    ensures Taken(s, d, s.nodes[d].kids[i],
        s.(nodes := Detach(s.nodes, d, i) - {s.nodes[d].kids[i]}, freed := s.freed + [s.nodes[d].kids[i]]))
  {
    hide Inv, Tree, Has, Accounted;
    var n := s.nodes[d].kids[i];
    var b := Detach(s.nodes, d, i);
    var u := s.(nodes := b - {n}, freed := s.freed + [n]);
    LeafIs(s.nodes, d, i);
    DropInv(s, d, i);
    LogInv(s.(nodes := b - {n}), [n]);
    DropAccounted(s, b, n);
    DetachTree(s.nodes, d, i);
    TreeDrop(b, n);
    forall e, x, c ensures Has(u.nodes, e, x, c) <==> Has(s.nodes, e, x, c) && !(e == d && c == n) {
      DetachHas(s.nodes, d, i, e, x, c);
      HasDrop(b, n, e, x, c);
    }
    NoVnodeIn(s, n);
  }

  lemma DropAccounted(s: State, b: Nodes, n: nat)
    requires Accounted(s) && Issued(s) && b.Keys == s.nodes.Keys && n in s.nodes && n != 0
    ensures Accounted(s.(nodes := b - {n}, freed := s.freed + [n]))
  {
    hide Once;
    var t := s.(nodes := b);
    assert forall x :: x in b <==> x in s.nodes;
    AccountedSame(s, t);
    assert t.files - {n} == t.files && t.vnodes - {n} == t.vnodes;
    AccountedFreed(t, t.(nodes := b - {n}, freed := t.freed + [n]), n);
  }

  lemma NoVnodeIn(s: State, n: nat)
    requires Good(s) && Linked(s, n) && s.nodes[n].cache == 0
    ensures forall v :: v in s.vnodes ==> s.vnodes[v].node != n
  {
    NoVnode(s, n);
  }

  /** Unlink succeeds exactly on a child without children; the name goes, an open node stays. */
  lemma UnlinkIs(s: State, dv: nat, name: string) returns (n: nat)
    requires Good(s) && dv in s.vnodes && Linked(s, s.vnodes[dv].node)
    ensures var o := Unlink(s, dv, name); o.r.Err? ==> o.s == s
    ensures var d := s.vnodes[dv].node; var o := Unlink(s, dv, name);
            o.r.Ok? ==>
                  name !in {"", ".", ".."} && Has(s.nodes, d, name, n) && s.nodes[n].kids == [] && Taken(s, d, n, o.s)
    ensures var d := s.vnodes[dv].node;
          name !in {"", ".", ".."} ==>
            forall c :: Has(s.nodes, d, name, c) && s.nodes[c].kids == [] ==> Unlink(s, dv, name).r.Ok?
    ensures var d := s.vnodes[dv].node; var r := Unlink(s, dv, name).r;
            r.Err? ==>
                  r == Err(if !s.nodes[d].dir then NotDirectory else if name in {"", ".", ".."} then InvalidArgument
                                else if exists c :: Has(s.nodes, d, name, c) then DirectoryNotEmpty else NotFound)
  {
    hide Good, Taken, Tree, Has;
    var d := s.vnodes[dv].node;
    var kids := s.nodes[d].kids;
    var i := FirstNamed(s.nodes, kids, name);
    Stays(s, dv);
    n := 0;
    forall e ensures Has(s.nodes, d, name, e) <==> i < |kids| && kids[i] == e { FindIsHas(s.nodes, d, name, e); }
    if i < |kids| {
      n := kids[i];
      assert Has(s.nodes, d, name, n);
      LeafIs(s.nodes, d, i);
      DirHasDir(s.nodes, d);
      if s.nodes[n].kids == [] {
        if s.nodes[n].cache != 0 { TakenCached(s, d, i); } else { TakenBare(s, d, i); }
      }
    }
  }

  lemma DirHasDir(nodes: Nodes, d: nat)
    requires Tree(nodes) && d in nodes && nodes[d].kids != []
    ensures nodes[d].dir
  {
    assert DirOk(nodes, d);
  }
}
