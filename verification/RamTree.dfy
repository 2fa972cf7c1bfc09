/** The tree of ramfs nodes: every directory is a list of children with distinct names. */
module RamTree {
  import opened Machine
  import opened Refs

  type Nodes = map<nat, Node>

  ghost predicate KidOk(nodes: Nodes, d: nat, c: nat) { c in nodes && d < c && nodes[c].parent == d }

  ghost predicate NamesDiffer(nodes: Nodes, a: nat, b: nat) { a in nodes && b in nodes ==>
        nodes[a].name != nodes[b].name }

  /** A directory's children are live, were made after it, know their parent and have distinct names. */
  ghost predicate DirOk(nodes: Nodes, d: nat)
    requires d in nodes
  {
    && (forall i: nat :: i < |nodes[d].kids| ==> KidOk(nodes, d, nodes[d].kids[i]))
    && (forall i: nat, j: nat :: i < j < |nodes[d].kids| ==> NamesDiffer(nodes, nodes[d].kids[i], nodes[d].kids[j]))
    && (nodes[d].kids != [] ==> nodes[d].dir && InTree(nodes, d))
  }

  ghost predicate ParentOk(nodes: Nodes, c: nat)
    requires c in nodes
  {
    nodes[c].parent != 0 && nodes[c].parent != c ==> nodes[c].parent in nodes && c in nodes[nodes[c].parent].kids
  }

  ghost predicate Tree(nodes: Nodes) {
    && 0 !in nodes
    && (forall d :: d in nodes ==> DirOk(nodes, d))
    && (forall c :: c in nodes ==> ParentOk(nodes, c))
  }

  /** Directory d holds child c under this name. */
  ghost predicate Has(nodes: Nodes, d: nat, name: string, c: nat) {
    d in nodes && c in nodes[d].kids && c in nodes && nodes[c].name == name
  }

  /** The nodes agree on everything but cached vnodes and data. */
  ghost predicate SameTree(a: Nodes, b: Nodes) {
    a.Keys == b.Keys
    && forall n ::
          n in a ==>
            a[n].name == b[n].name && a[n].dir == b[n].dir && a[n].parent == b[n].parent && a[n].kids == b[n].kids
  }

  lemma TreeFramed(a: Nodes, b: Nodes)
    requires Tree(a) && SameTree(a, b)
    ensures Tree(b)
  {
    assert forall n :: n in b <==> n in a;
    forall d | d in b ensures DirOk(b, d) {
      assert DirOk(a, d);
      forall i: nat | i < |b[d].kids| ensures KidOk(b, d, b[d].kids[i]) { assert KidOk(a, d, a[d].kids[i]); }
      forall i: nat, j: nat | i < j < |b[d].kids| ensures NamesDiffer(b, b[d].kids[i], b[d].kids[j]) {
        assert NamesDiffer(a, a[d].kids[i], a[d].kids[j]);
      }
    }
    forall c | c in b ensures ParentOk(b, c) { assert ParentOk(a, c); }
  }

  /** The place of the first child with this name, |kids| when there is none. */
  function FirstNamed(nodes: Nodes, kids: seq<nat>, name: string): (i: nat)
    ensures i <= |kids|
  {
    if kids == [] then 0
    else if kids[0] in nodes && nodes[kids[0]].name == name then 0
    else 1 + FirstNamed(nodes, kids[1..], name)
  }

  /** In a tree the first child of a name is the only one. */
  lemma {:induction false} FirstIs(nodes: Nodes, kids: seq<nat>, name: string)
    ensures var i := FirstNamed(nodes, kids, name);
            && (i < |kids| ==> kids[i] in nodes && nodes[kids[i]].name == name)
            && forall j: nat :: j < i ==> kids[j] in nodes ==> nodes[kids[j]].name != name
  {
    if kids != [] && !(kids[0] in nodes && nodes[kids[0]].name == name) {
      var rest := kids[1..];
      FirstIs(nodes, rest, name);
      var i := FirstNamed(nodes, kids, name);
      forall j: nat | j < i && kids[j] in nodes ensures nodes[kids[j]].name != name {
        if j > 0 { assert kids[j] == rest[j - 1]; }
      }
    }
  }

  /** Looking a name up in a directory is looking it up in a map. */
  lemma FindIsHas(nodes: Nodes, d: nat, name: string, c: nat)
    requires Tree(nodes) && d in nodes
    ensures Has(nodes, d, name, c) <==>
          var i := FirstNamed(nodes, nodes[d].kids, name); i < |nodes[d].kids| && nodes[d].kids[i] == c
  {
    var kids := nodes[d].kids;
    FirstIs(nodes, kids, name);
    var i := FirstNamed(nodes, kids, name);
    assert DirOk(nodes, d);
    if Has(nodes, d, name, c) {
      var j: nat :| j < |kids| && kids[j] == c;
      if i < j { assert KidOk(nodes, d, kids[i]) && NamesDiffer(nodes, kids[i], kids[j]); }
    }
  }

  lemma HasInTree(nodes: Nodes, d: nat, name: string, c: nat)
    requires Tree(nodes) && Has(nodes, d, name, c)
    ensures InTree(nodes, c) && nodes[c].parent == d && 0 < d < c
  {
    var i: nat :| i < |nodes[d].kids| && nodes[d].kids[i] == c;
    assert DirOk(nodes, d) && KidOk(nodes, d, nodes[d].kids[i]);
  }

  lemma ParentInTree(nodes: Nodes, c: nat)
    requires Tree(nodes) && c in nodes && nodes[c].parent != 0
    ensures InTree(nodes, nodes[c].parent)
  {
    assert ParentOk(nodes, c) && DirOk(nodes, nodes[c].parent);
  }

  /** Taking away a node that is out of the tree leaves the tree. */
  lemma TreeDrop(nodes: Nodes, n: nat)
    requires Tree(nodes) && n in nodes && !InTree(nodes, n)
    ensures Tree(nodes - {n})
  {
    var b := nodes - {n};
    forall d | d in b ensures DirOk(b, d) { DirDrop(nodes, n, d); }
    forall c | c in b ensures ParentOk(b, c) { assert ParentOk(nodes, c) && DirOk(nodes, n); }
  }

  lemma DirDrop(nodes: Nodes, n: nat, d: nat)
    requires DirOk.requires(nodes, d) && DirOk(nodes, d) && n in nodes && !InTree(nodes, n) && d != n && d != 0
    ensures DirOk(nodes - {n}, d)
  {
    var b := nodes - {n};
    var kids := nodes[d].kids;
    forall i: nat | i < |kids| ensures KidOk(b, d, kids[i]) { assert KidOk(nodes, d, kids[i]); }
    forall i: nat, j: nat | i < j < |kids|
        ensures NamesDiffer(b, kids[i], kids[j]) { assert NamesDiffer(nodes, kids[i], kids[j]); }
  }

  /** ramfs_create_vn's links: the new node goes to the front of the directory's list. */
  function Link(nodes: Nodes, d: nat, n: nat, node: Node): Nodes
    requires d in nodes
  {
    nodes[n := node.(parent := d, kids := [])][d := nodes[d].(kids := [n] + nodes[d].kids)]
  }

  lemma LinkTree(nodes: Nodes, d: nat, n: nat, node: Node)
    requires Tree(nodes) && InTree(nodes, d) && nodes[d].dir && n !in nodes && d < n
    requires forall c :: !Has(nodes, d, node.name, c)
    ensures Tree(Link(nodes, d, n, node))
  {
    hide ParentOk;
    var b := Link(nodes, d, n, node);
    assert DirOk(nodes, d);
    forall e | e in b ensures DirOk(b, e) {
      if e == d { LinkDir(nodes, d, n, node); } else if e != n { LinkOther(nodes, d, n, node, e); }
    }
    forall c | c in b ensures ParentOk(b, c) { LinkParent(nodes, d, n, node, c); }
  }

  lemma LinkDir(nodes: Nodes, d: nat, n: nat, node: Node)
    requires d in nodes && DirOk(nodes, d) && InTree(nodes, d) && nodes[d].dir && n !in nodes && d < n
    requires forall c :: !Has(nodes, d, node.name, c)
    ensures DirOk(Link(nodes, d, n, node), d)
  {
    var b := Link(nodes, d, n, node);
    var kids, kids' := nodes[d].kids, b[d].kids;
    forall i: nat | i < |kids'| ensures KidOk(b, d, kids'[i]) {
      if i > 0 { assert KidOk(nodes, d, kids[i - 1]); }
    }
    forall i: nat, j: nat | i < j < |kids'| ensures NamesDiffer(b, kids'[i], kids'[j]) {
      assert KidOk(nodes, d, kids[j - 1]);
      if i == 0 { assert !Has(nodes, d, node.name, kids[j - 1]);
            } else { assert NamesDiffer(nodes, kids[i - 1], kids[j - 1]) && KidOk(nodes, d, kids[i - 1]); }
    }
  }

  lemma LinkOther(nodes: Nodes, d: nat, n: nat, node: Node, e: nat)
    requires d in nodes && e in nodes && e != d && DirOk(nodes, e) && n !in nodes
    ensures DirOk(Link(nodes, d, n, node), e)
  {
    var b := Link(nodes, d, n, node);
    var kids := nodes[e].kids;
    forall i: nat | i < |kids| ensures KidOk(b, e, kids[i]) { assert KidOk(nodes, e, kids[i]); }
    forall i: nat, j: nat | i < j < |kids|
        ensures NamesDiffer(b, kids[i], kids[j]) { assert NamesDiffer(nodes, kids[i], kids[j])
        && KidOk(nodes, e, kids[i]) && KidOk(nodes, e, kids[j]); }
  }

  lemma LinkParent(nodes: Nodes, d: nat, n: nat, node: Node, c: nat)
    requires d in nodes && n !in nodes && c in Link(nodes, d, n, node) && (c in nodes ==> ParentOk(nodes, c))
    ensures ParentOk(Link(nodes, d, n, node), c)
  {
    var b := Link(nodes, d, n, node);
    if c != n {
      var p := nodes[c].parent;
      if p == d && p != 0 { assert nodes[p].kids == b[p].kids[1..]; }
    } else {
      assert b[d].kids[0] == n;
    }
  }

  /** Creating adds one name to one directory and changes no other. */
  lemma LinkHas(nodes: Nodes, d: nat, n: nat, node: Node, e: nat, name: string, c: nat)
    requires Tree(nodes) && d in nodes && n !in nodes
    ensures Has(Link(nodes, d, n, node), e, name, c) <==>
          Has(nodes, e, name, c) || (e == d && c == n && name == node.name)
  {
    var b := Link(nodes, d, n, node);
    if e in nodes { assert DirOk(nodes, e); }
    if e == d { assert b[d].kids[0] == n && b[d].kids[1..] == nodes[d].kids; }
  }

  /** The child at place i is taken out of the list and forgets its parent. */
  function Detach(nodes: Nodes, d: nat, i: nat): Nodes
    requires d in nodes && i < |nodes[d].kids| && nodes[d].kids[i] in nodes && nodes[d].kids[i] != d
  {
    var n := nodes[d].kids[i];
    nodes[d := nodes[d].(kids := nodes[d].kids[..i] + nodes[d].kids[i + 1..])][n := nodes[n].(parent := 0)]
  }

  /** A child that can be unlinked: it is at place i of d and has no children of its own. */
  ghost predicate Leaf(nodes: Nodes, d: nat, i: nat) {
    && d in nodes && i < |nodes[d].kids| && nodes[d].kids[i] in nodes && nodes[d].kids[i] != d
    && nodes[nodes[d].kids[i]].kids == []
  }

  lemma LeafIs(nodes: Nodes, d: nat, i: nat)
    requires Tree(nodes) && d in nodes && i < |nodes[d].kids|
    ensures nodes[d].kids[i] in nodes && d < nodes[d].kids[i] && nodes[nodes[d].kids[i]].parent == d && d != 0
    ensures nodes[nodes[d].kids[i]].kids == [] ==> Leaf(nodes, d, i)
    ensures nodes[nodes[d].kids[i]].kids != [] ==> nodes[nodes[d].kids[i]].dir
  {
    assert DirOk(nodes, d) && KidOk(nodes, d, nodes[d].kids[i]);
    assert DirOk(nodes, nodes[d].kids[i]);
  }

  lemma DetachTree(nodes: Nodes, d: nat, i: nat)
    requires Tree(nodes) && Leaf(nodes, d, i)
    ensures Tree(Detach(nodes, d, i)) && !InTree(Detach(nodes, d, i), nodes[d].kids[i])
  {
    hide ParentOk, DirOk;
    LeafIs(nodes, d, i);
    var b := Detach(nodes, d, i);
    forall e | e in b ensures DirOk(b, e) {
      if e == d { DetachDir(nodes, d, i); } else { DetachOther(nodes, d, i, e); }
    }
    forall c | c in b ensures ParentOk(b, c) { DetachParent(nodes, d, i, c); }
  }

  lemma DetachDir(nodes: Nodes, d: nat, i: nat)
    requires Leaf(nodes, d, i) && DirOk(nodes, d)
    ensures DirOk(Detach(nodes, d, i), d)
  {
    var b := Detach(nodes, d, i);
    var kids, kids' := nodes[d].kids, b[d].kids;
    forall j: nat | j < |kids'| ensures KidOk(b, d, kids'[j]) {
      var k := if j < i then j else j + 1;
      assert kids'[j] == kids[k] && KidOk(nodes, d, kids[k]) && KidOk(nodes, d, kids[i]);
      if k < i { assert NamesDiffer(nodes, kids[k], kids[i]); } else { assert NamesDiffer(nodes, kids[i], kids[k]); }
    }
    forall j: nat, l: nat | j < l < |kids'| ensures NamesDiffer(b, kids'[j], kids'[l]) {
      var k, m := if j < i then j else j + 1, if l < i then l else l + 1;
      assert kids'[j] == kids[k] && kids'[l] == kids[m] && NamesDiffer(nodes, kids[k], kids[m]);
    }
  }

  lemma DetachOther(nodes: Nodes, d: nat, i: nat, e: nat)
    requires Leaf(nodes, d, i) && e in nodes && e != d && DirOk(nodes, e) && nodes[nodes[d].kids[i]].parent == d
    ensures DirOk(Detach(nodes, d, i), e)
  {
    var b := Detach(nodes, d, i);
    var kids := nodes[e].kids;
    forall j: nat | j < |kids| ensures KidOk(b, e, kids[j]) { assert KidOk(nodes, e, kids[j]); }
    forall j: nat, l: nat | j < l < |kids|
        ensures NamesDiffer(b, kids[j], kids[l]) { assert NamesDiffer(nodes, kids[j], kids[l]); }
  }

  lemma DetachParent(nodes: Nodes, d: nat, i: nat, c: nat)
    requires Leaf(nodes, d, i) && c in nodes && ParentOk(nodes, c)
    ensures ParentOk(Detach(nodes, d, i), c)
  {
    var b := Detach(nodes, d, i);
    var kids := nodes[d].kids;
    if c != kids[i] && c != d && nodes[c].parent == d && d != 0 {
      var j: nat :| j < |kids| && kids[j] == c;
      if j < i { assert b[d].kids[j] == c; } else { assert b[d].kids[j - 1] == c; }
    }
  }

  /** Unlinking takes one name out of one directory and changes no other. */
  lemma DetachHas(nodes: Nodes, d: nat, i: nat, e: nat, name: string, c: nat)
    requires Tree(nodes) && Leaf(nodes, d, i)
    ensures Has(Detach(nodes, d, i), e, name, c) <==> Has(nodes, e, name, c) && !(e == d && c == nodes[d].kids[i])
  {
    var b := Detach(nodes, d, i);
    var kids := nodes[d].kids;
    if e == d {
      assert DirOk(nodes, d);
      KidLeft(nodes, d, i, c);
    }
  }

  lemma KidLeft(nodes: Nodes, d: nat, i: nat, c: nat)
    requires Leaf(nodes, d, i) && DirOk(nodes, d)
    ensures c in Detach(nodes, d, i)[d].kids <==> c in nodes[d].kids && c != nodes[d].kids[i]
  {
    var kids, kids' := nodes[d].kids, Detach(nodes, d, i)[d].kids;
    if c in kids' {
      var j: nat :| j < |kids'| && kids'[j] == c;
      var k := if j < i then j else j + 1;
      assert kids[k] == c && KidOk(nodes, d, kids[k]) && KidOk(nodes, d, kids[i]);
      if k < i { assert NamesDiffer(nodes, kids[k], kids[i]); } else { assert NamesDiffer(nodes, kids[i], kids[k]); }
    }
    if c in kids && c != kids[i] {
      var j: nat :| j < |kids| && kids[j] == c;
      if j < i { assert kids'[j] == c; } else { assert kids'[j - 1] == c; }
    }
  }
}
