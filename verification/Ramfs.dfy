/** ramfs under the virtual file system: lookup, path walk, create, unlink and file contents on the books of Refs. */
module Ramfs {
  import opened Machine
  import opened Refs
  import opened RamTree

  const NAME_MAX: nat := 255

  /** Answers, for each object in the order made, whether its memory is granted. */
  type Memory = nat -> bool

  /** All memory asked for is granted. */
  ghost predicate Granted(mem: Memory) { forall k :: mem(k) }

  /** Neither memory nor a name's length stands in the way of a path. */
  ghost predicate Plenty(mem: Memory, path: seq<string>) { Granted(mem) && forall i ::
        0 <= i < |path| ==> |path[i]| <= NAME_MAX }

  /** The state after a call and what it returned. */
  datatype Out = Out(s: State, r: Result<nat>)

  /** Every live object was made before the next one. */
  ghost predicate Issued(s: State) {
    && ROOT < s.next
    && (forall f :: f in s.files ==> f < s.next) && (forall h :: h in s.handles ==> h < s.next)
    && (forall v :: v in s.vnodes ==> v < s.next) && (forall n :: n in s.nodes ==> n < s.next)
  }

  ghost predicate Once(l: seq<nat>) { forall i: nat, j: nat :: i < j < |l| ==> l[i] != l[j] }

  /** The object x is live: a file, a vnode or a node. */
  predicate Live(s: State, x: nat) { x in s.files || x in s.vnodes || x in s.nodes }

  ghost predicate Kinds(s: State) {
    && (forall f :: f in s.files ==> f !in s.vnodes && f !in s.nodes) && (forall v :: v in s.vnodes ==> v !in s.nodes)
  }

  /** Every object ever made is live or was freed, never both, and nothing was freed twice. */
  ghost predicate Accounted(s: State) {
    && Once(s.freed) && Kinds(s)
    && (forall x :: x in s.freed ==> 0 < x < s.next && !Live(s, x))
    && (forall x: nat :: 0 < x < s.next ==> Live(s, x) || x in s.freed)
  }

  /** What every call keeps. */
  ghost predicate Good(s: State) { Inv(s, 0, 0) && Tree(s.nodes) && Issued(s) && Accounted(s) }

  lemma AccountedSame(s: State, s': State)
    requires Accounted(s) && s'.files.Keys == s.files.Keys && s'.vnodes.Keys == s.vnodes.Keys
        && s'.nodes.Keys == s.nodes.Keys
    requires s'.next == s.next && s'.freed == s.freed
    ensures Accounted(s')
  {
    assert forall x ::
          (x in s'.files <==> x in s.files) && (x in s'.vnodes <==> x in s.vnodes) && (x in s'.nodes <==> x in s.nodes);
  }

  /** One object more, of one kind. */
  lemma AccountedMade(s: State, s': State)
    requires Accounted(s) && Issued(s) && s'.next == s.next + 1 && s'.freed == s.freed
    requires var x := {s.next};
             || (s'.files.Keys == s.files.Keys + x && s'.vnodes.Keys == s.vnodes.Keys && s'.nodes.Keys == s.nodes.Keys)
             || (s'.files.Keys == s.files.Keys && s'.vnodes.Keys == s.vnodes.Keys + x && s'.nodes.Keys == s.nodes.Keys)
             || (s'.files.Keys == s.files.Keys && s'.vnodes.Keys == s.vnodes.Keys && s'.nodes.Keys == s.nodes.Keys + x)
    ensures Accounted(s')
  {
    assert forall x :: x in s'.files <==> x in s'.files.Keys;
    assert forall x :: x in s'.vnodes <==> x in s'.vnodes.Keys;
    assert forall x :: x in s'.nodes <==> x in s'.nodes.Keys;
  }

  /** One object fewer, and its memory freed. */
  lemma AccountedFreed(s: State, s': State, x: nat)
    requires Accounted(s) && 0 < x < s.next && Live(s, x) && s'.next == s.next && s'.freed == s.freed + [x]
    requires s'.files == s.files - {x} && s'.vnodes == s.vnodes - {x} && s'.nodes == s.nodes - {x}
    ensures Accounted(s')
  {
    var l := s.freed + [x];
    forall i: nat, j: nat | i < j < |l| ensures l[i] != l[j] { if j == |s.freed| { assert l[i] in s.freed; } }
  }

  ghost predicate FilesKept(s: State, s': State) {
    forall f :: f in s'.files && f < s.next ==> f in s.files && s'.files[f].vn == s.files[f].vn
  }

  ghost predicate VnodesKept(s: State, s': State) {
    forall v :: v in s'.vnodes && v < s.next ==> v in s.vnodes && s'.vnodes[v].node == s.vnodes[v].node
  }

  ghost predicate NodesKept(s: State, s': State, w: set<nat>) {
    forall n :: n in s'.nodes && n < s.next ==> n in s.nodes && (n !in w ==> s'.nodes[n].data == s.nodes[n].data)
  }

  /** No freed object comes back, the log of the freed ones only grows, files and vnodes keep what they stand for, and
      only nodes in w change their data. */
  ghost predicate Lasting(s: State, s': State, w: set<nat>) {
    s.next <= s'.next && s.freed <= s'.freed && FilesKept(s, s') && VnodesKept(s, s') && NodesKept(s, s', w)
  }

  /** No node becomes a root. */
  ghost predicate RootsKept(s: State, s': State) {
    forall n :: n in s'.nodes && s'.nodes[n].parent == n ==> n in s.nodes && s.nodes[n].parent == n
  }

  ghost predicate Kept(s: State, s': State, w: set<nat>) { Lasting(s, s', w) && RootsKept(s, s') }

  lemma LastingTrans(a: State, b: State, c: State, w: set<nat>, x: set<nat>)
    requires Lasting(a, b, w) && Lasting(b, c, x)
    ensures Lasting(a, c, w + x)
  {
  }

  lemma KeptTrans(a: State, b: State, c: State, w: set<nat>, x: set<nat>)
    requires Kept(a, b, w) && Kept(b, c, x)
    ensures Kept(a, c, w + x)
  {
    hide Lasting;
    LastingTrans(a, b, c, w, x);
  }

  /** ramfs_node_vnode: the cached vnode, made on the first use. */
  function NodeVnode(s: State, n: nat, mem: Memory): Out {
    if n !in s.nodes then Out(s, Err(OutOfMemory))
    else if s.nodes[n].cache != 0 then Out(s, Ok(s.nodes[n].cache))
    else if !mem(s.next) then Out(s, Err(OutOfMemory))
    else Out(AddVnode(s, n), Ok(s.next))
  }

  function AddVnode(s: State, n: nat): State
    requires n in s.nodes
  {
    s.(vnodes := s.vnodes[s.next := Vnode(n, 1)], nodes := s.nodes[n := s.nodes[n].(cache := s.next)],
        next := s.next + 1)
  }

  /** A linked node without a cached vnode has none at all. */
  lemma NoVnode(s: State, n: nat)
    requires Shape(s) && VnodesOk(s, 0) && Linked(s, n) && s.nodes[n].cache == 0
    ensures forall v :: v in s.vnodes ==> s.vnodes[v].node != n
  {
    hide OpenSet;
    forall v | v in s.vnodes ensures s.vnodes[v].node != n { assert VnodeOk(s, v, 0); }
  }

  lemma AddVnodeVnodes(s: State, n: nat)
    requires Shape(s) && FilesOk(s, 0) && VnodesOk(s, 0) && Linked(s, n) && s.nodes[n].cache == 0 && s.next !in s.vnodes
        && s.next != 0
    ensures VnodesOk(AddVnode(s, n), 0)
  {
    hide OpenSet, FilesOk;
    var s' := AddVnode(s, n);
    NoVnode(s, n);
    NoFile(s, s.next);
    forall v | v in s'.vnodes ensures VnodeOk(s', v, 0) {
      if v != s.next { assert VnodeOk(s, v, 0); }
    }
  }

  lemma NoFile(s: State, v: nat)
    requires FilesOk(s, 0) && v !in s.vnodes
    ensures |OpenSet(s.files, v)| == 0
  {
    FilesHaveVnodes(s, 0);
    assert OpenSet(s.files, v) == {};
  }

  lemma AddVnodeNodes(s: State, n: nat)
    requires Shape(s) && NodesOk(s) && Linked(s, n) && s.nodes[n].cache == 0 && s.next !in s.vnodes
    requires forall v :: v in s.vnodes ==> s.vnodes[v].node != n
    ensures NodesOk(AddVnode(s, n))
  {
    var s' := AddVnode(s, n);
    forall m | m in s'.nodes ensures NodeOk(s', m) {
      assert NodeOk(s, m);
      if !Linked(s, m) { var w :| w in s.vnodes && s.vnodes[w].node == m;
            assert w in s'.vnodes && s'.vnodes[w].node == m; }
    }
  }

  lemma AddVnodeInv(s: State, n: nat)
    requires Inv(s, 0, 0) && Linked(s, n) && s.nodes[n].cache == 0 && s.next !in s.vnodes && s.next != 0
    ensures Inv(AddVnode(s, n), 0, 0)
  {
    hide FilesOk, VnodesOk, NodesOk;
    var s' := AddVnode(s, n);
    NoVnode(s, n);
    AddVnodeVnodes(s, n);
    AddVnodeNodes(s, n);
    FilesHaveVnodes(s, 0);
    FilesFramed(s, s', 0);
  }

  lemma AddVnodeGood(s: State, n: nat)
    requires Good(s) && Linked(s, n) && s.nodes[n].cache == 0
    ensures Good(AddVnode(s, n)) && Kept(s, AddVnode(s, n), {}) && SameTree(s.nodes, AddVnode(s, n).nodes)
  {
    hide Inv, Tree, Accounted;
    var s' := AddVnode(s, n);
    AddVnodeInv(s, n);
    AccountedMade(s, s');
    assert SameTree(s.nodes, s'.nodes);
    TreeFramed(s.nodes, s'.nodes);
  }

  /** What resolving a name gives and leaves: a vnode of a linked node, and the same tree, files and data. */
  ghost predicate Resolved(s: State, o: Out, n: nat) {
    && Good(o.s) && Kept(s, o.s, {}) && SameTree(s.nodes, o.s.nodes) && o.s.fds == s.fds && o.s.handles == s.handles
        && o.s.files == s.files
    && (o.r.Ok? ==> o.r.value in o.s.vnodes && o.s.vnodes[o.r.value].node == n && Linked(o.s, n))
  }

  lemma NodeVnodeIs(s: State, n: nat, mem: Memory)
    requires Good(s) && Linked(s, n)
    ensures Resolved(s, NodeVnode(s, n, mem), n)
    ensures NodeVnode(s, n, mem).r.Ok? || (NodeVnode(s, n, mem).r == Err(OutOfMemory) && !Granted(mem))
  {
    hide FilesOk, VnodesOk, Tree, Accounted;
    assert NodeOk(s, n);
    if s.nodes[n].cache == 0 { AddVnodeGood(s, n); }
  }

  /** ramfs_lookup_vn, with vfs_lookup_component's check. */
  function Lookup(s: State, dv: nat, name: string, mem: Memory): Out {
    if dv !in s.vnodes || s.vnodes[dv].node !in s.nodes then Out(s, Err(InvalidArgument))
    else
      var d := s.vnodes[dv].node;
      if !s.nodes[d].dir then Out(s, Err(NotDirectory))
      else if name == "." then Out(s, Ok(dv))
      else if name == ".." then NodeVnode(s, if s.nodes[d].parent != 0 then s.nodes[d].parent else d, mem)
      else
        var i := FirstNamed(s.nodes, s.nodes[d].kids, name);
        if i == |s.nodes[d].kids| then Out(s, Err(NotFound)) else NodeVnode(s, s.nodes[d].kids[i], mem)
  }

  /** Child c is what a name stands for in directory d, by the tree alone. */
  ghost predicate Enters(nodes: Nodes, d: nat, name: string, c: nat) {
    && d in nodes && nodes[d].dir
    && (if name == "." then c == d
        else if name == ".." then c == if nodes[d].parent != 0 then nodes[d].parent else d
        else Has(nodes, d, name, c))
  }

  /** Node c is where a path leads from node n. */
  ghost predicate Leads(nodes: Nodes, n: nat, path: seq<string>, c: nat)
    decreases |path|
  {
    if path == [] then c == n else exists m :: Enters(nodes, n, path[0], m) && Leads(nodes, m, path[1..], c)
  }

  /** Lookup finds exactly what the tree says, or runs out of memory. */
  lemma LookupIs(s: State, dv: nat, name: string, mem: Memory) returns (c: nat)
    requires Good(s) && dv in s.vnodes && Linked(s, s.vnodes[dv].node)
    ensures Resolved(s, Lookup(s, dv, name, mem), c)
    ensures Lookup(s, dv, name, mem).r.Ok? ==> Enters(s.nodes, s.vnodes[dv].node, name, c)
    ensures var r := Lookup(s, dv, name, mem).r;
            r.Err? ==>
                  (r == Err(OutOfMemory) && !Granted(mem)) || forall e :: !Enters(s.nodes, s.vnodes[dv].node, name, e)
    ensures var r := Lookup(s, dv, name, mem).r;
            r.Err? && r != Err(OutOfMemory) ==>
                  r == Err(if s.nodes[s.vnodes[dv].node].dir then NotFound else NotDirectory)
  {
    hide Inv, Tree, Issued, Accounted, Granted;
    var d := s.vnodes[dv].node;
    c := d;
    if !s.nodes[d].dir || name == "." {
    } else if name == ".." {
      if s.nodes[d].parent != 0 { c := s.nodes[d].parent; ParentInTree(s.nodes, d); }
      NodeVnodeIs(s, c, mem);
    } else {
      var i := FirstNamed(s.nodes, s.nodes[d].kids, name);
      forall e ensures Has(s.nodes, d, name, e) <==>
            i < |s.nodes[d].kids| && s.nodes[d].kids[i] == e { FindIsHas(s.nodes, d, name, e); }
      if i < |s.nodes[d].kids| {
        c := s.nodes[d].kids[i];
        HasInTree(s.nodes, d, name, c);
        NodeVnodeIs(s, c, mem);
      }
    }
  }

  /** vfs_lookup's loop over the components of a path. */
  function Walk(s: State, cur: nat, path: seq<string>, mem: Memory): Out
    decreases |path|
  {
    if path == [] then Out(s, Ok(cur))
    else if |path[0]| > NAME_MAX then Out(s, Err(NameTooLong))
    else
      var o := Lookup(s, cur, path[0], mem);
      if o.r.Err? then o else Walk(o.s, o.r.value, path[1..], mem)
  }

  lemma EntersSame(a: Nodes, b: Nodes, d: nat, name: string, c: nat)
    requires SameTree(a, b)
    ensures Enters(a, d, name, c) <==> Enters(b, d, name, c)
  {
    assert d in a <==> d in b;
    assert c in a <==> c in b;
  }

  lemma {:induction false} LeadsSame(a: Nodes, b: Nodes, n: nat, path: seq<string>, c: nat)
    requires SameTree(a, b)
    ensures Leads(a, n, path, c) <==> Leads(b, n, path, c)
    decreases |path|
  {
    hide Enters;
    if path != [] {
      forall m ensures Enters(a, n, path[0], m) <==> Enters(b, n, path[0], m) { EntersSame(a, b, n, path[0], m); }
      forall m ensures Leads(a, m, path[1..], c) <==> Leads(b, m, path[1..], c) { LeadsSame(a, b, m, path[1..], c); }
    }
  }

  lemma EntersOnce(nodes: Nodes, d: nat, name: string, c: nat, e: nat)
    requires Tree(nodes) && Enters(nodes, d, name, c) && Enters(nodes, d, name, e)
    ensures c == e
  {
    hide Tree;
    FindIsHas(nodes, d, name, c);
    FindIsHas(nodes, d, name, e);
  }

  lemma ResolvedTrans(s: State, o: Out, n: nat, p: Out, m: nat)
    requires Resolved(s, o, n) && Resolved(o.s, p, m)
    ensures Resolved(s, p, m)
  {
    hide Inv, Tree, Issued, Accounted;
    var none: set<nat> := {};
    KeptTrans(s, o.s, p.s, none, none);
    assert none + none == none;
  }

  /** A path leads to one node at most. */
  lemma {:induction false} LeadsOnce(nodes: Nodes, n: nat, path: seq<string>, c: nat, e: nat)
    requires Tree(nodes) && Leads(nodes, n, path, c) && Leads(nodes, n, path, e)
    ensures c == e
    decreases |path|
  {
    hide Enters, Tree;
    if path != [] {
      var m :| Enters(nodes, n, path[0], m) && Leads(nodes, m, path[1..], c);
      var k :| Enters(nodes, n, path[0], k) && Leads(nodes, k, path[1..], e);
      EntersOnce(nodes, n, path[0], m, k);
      LeadsOnce(nodes, m, path[1..], c, e);
    }
  }

  /** One step of Leads when the first name is known. */
  lemma LeadsVia(nodes: Nodes, n: nat, path: seq<string>, c: nat, e: nat)
    requires Tree(nodes) && path != [] && Enters(nodes, n, path[0], c)
    ensures Leads(nodes, n, path, e) <==> Leads(nodes, c, path[1..], e)
  {
    hide Enters, Tree;
    if Leads(nodes, n, path, e) {
      var m :| Enters(nodes, n, path[0], m) && Leads(nodes, m, path[1..], e);
      EntersOnce(nodes, n, path[0], c, m);
    }
  }

  /** The end of a walk is the one the tree gives, or there is a reason for the failure. */
  ghost predicate WalkedTo(s: State, cur: nat, path: seq<string>, mem: Memory, o: Out, c: nat)
    requires cur in s.vnodes
  {
    && (o.r.Ok? ==> Leads(s.nodes, s.vnodes[cur].node, path, c))
    && (o.r.Err? ==>
          (o.r in {Err(OutOfMemory), Err(NameTooLong)} && !Plenty(mem, path))
          || forall e :: !Leads(s.nodes, s.vnodes[cur].node, path, e))
  }

  /** Walking a path ends where the tree says, or fails because it leads nowhere or memory or a name gives out. */
  lemma {:induction false} WalkIs(s: State, cur: nat, path: seq<string>, mem: Memory) returns (c: nat)
    requires Good(s) && cur in s.vnodes && Linked(s, s.vnodes[cur].node)
    ensures Resolved(s, Walk(s, cur, path, mem), c) && WalkedTo(s, cur, path, mem, Walk(s, cur, path, mem), c)
    decreases |path|
  {
    hide Good, Kept, SameTree, Leads, Enters;
    c := s.vnodes[cur].node;
    Stays(s, cur);
    if path == [] || |path[0]| > NAME_MAX {
      Nowhere(s.nodes, c, path);
    } else {
      var o := Lookup(s, cur, path[0], mem);
      c := LookupIs(s, cur, path[0], mem);
      if o.r.Ok? {
        var m := c;
        c := WalkIs(o.s, o.r.value, path[1..], mem);
        ResolvedTrans(s, o, m, Walk(o.s, o.r.value, path[1..], mem), c);
        WalkedOn(s, cur, path, mem, o, m, Walk(o.s, o.r.value, path[1..], mem), c);
      } else {
        Nowhere(s.nodes, s.vnodes[cur].node, path);
      }
    }
  }

  lemma Stays(s: State, cur: nat)
    requires Good(s)
    ensures Kept(s, s, {}) && SameTree(s.nodes, s.nodes) && Tree(s.nodes)
  {
    hide Inv, Tree, Accounted;
  }

  lemma Nowhere(nodes: Nodes, n: nat, path: seq<string>)
    ensures path == [] ==> Leads(nodes, n, path, n)
    ensures path != [] && (forall e :: !Enters(nodes, n, path[0], e)) ==> forall e :: !Leads(nodes, n, path, e)
  {
    hide Enters;
  }

  lemma WalkedOn(s: State, cur: nat, path: seq<string>, mem: Memory, o: Out, m: nat, p: Out, c: nat)
    requires cur in s.vnodes && path != [] && Tree(s.nodes) && SameTree(s.nodes, o.s.nodes)
    requires o.r.Ok? && o.r.value in o.s.vnodes && o.s.vnodes[o.r.value].node == m
        && Enters(s.nodes, s.vnodes[cur].node, path[0], m)
    requires WalkedTo(o.s, o.r.value, path[1..], mem, p, c)
    ensures WalkedTo(s, cur, path, mem, p, c)
  {
    hide Tree, SameTree, Leads, Enters;
    forall e ensures Leads(s.nodes, s.vnodes[cur].node, path, e) <==> Leads(o.s.nodes, m, path[1..], e) {
      LeadsVia(s.nodes, s.vnodes[cur].node, path, m, e);
      LeadsSame(s.nodes, o.s.nodes, m, path[1..], e);
    }
  }
}
