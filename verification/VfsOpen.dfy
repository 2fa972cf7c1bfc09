/** Opening, making and removing by path, and reading and writing what is open. */
module VfsOpen {
  import opened Machine
  import opened Refs
  import opened RamTree
  import opened Ramfs
  import opened RamfsDir
  import opened VfsCalls

  /** The root directory's vnode, 0 when nothing is mounted. */
  function Root(s: State): nat { if ROOT in s.nodes then s.nodes[ROOT].cache else 0 }

  /** vfs_lookup. */
  function LookupPath(s: State, path: seq<string>, mem: Memory): Out { if Root(s) == 0 then Out(s, Err(NotFound))
      else Walk(s, Root(s), path, mem) }

  function Front(path: seq<string>): seq<string>
    requires path != []
  {
    path[..|path| - 1]
  }

  function LastName(path: seq<string>): string
    requires path != []
  {
    path[|path| - 1]
  }

  /** vfs_resolve_parent_path: the directory before the last name, which may be neither "." nor "..". */
  function ParentPath(s: State, path: seq<string>, mem: Memory): Out {
    if path == [] then Out(s, Err(InvalidArgument))
    else
      var leaf := path[|path| - 1];
      var o := LookupPath(s, path[..|path| - 1], mem);
      if o.r.Err? then o
      else if |leaf| > NAME_MAX then Out(o.s, Err(NameTooLong))
      else if leaf == "." || leaf == ".." then Out(o.s, Err(InvalidArgument))
      else if !mem(o.s.next) then Out(o.s, Err(OutOfMemory))
      else o
  }

  /** The create half of vfs_open, and vfs_mkdir. */
  function MakePath(s: State, path: seq<string>, dir: bool, mem: Memory): Out {
    var p := ParentPath(s, path, mem);
    if p.r.Err? || path == [] then p else Create(p.s, p.r.value, path[|path| - 1], dir, mem)
  }

  /** vfs_unlink. */
  function UnlinkPath(s: State, path: seq<string>, mem: Memory): Out
    requires Good(s)
  {
    var p := ParentPath(s, path, mem);
    ParentPathGood(s, path, mem);
    if p.r.Err? || path == [] then p else Unlink(p.s, p.r.value, path[|path| - 1])
  }

  /** vfs_open: the file it returns is held by the caller alone. */
  function OpenFile(s: State, path: seq<string>, create: bool, mem: Memory): Out {
    var l := LookupPath(s, path, mem);
    var o := if l.r == Err(NotFound) && create then MakePath(l.s, path, false, mem) else l;
    if o.r.Err? then o
    else if o.r.value !in o.s.vnodes then Out(o.s, Err(Internal))
    else if !mem(o.s.next) then Out(o.s, Err(OutOfMemory))
    else Out(NewFile(o.s, o.r.value), Ok(o.s.next))
  }

  /** SYS_open: the descriptor takes its own reference and the call gives its one back. */
  function Open(s: State, p: Pid, path: seq<string>, create: bool, mem: Memory): Out
    requires Good(s)
  {
    var o := OpenFile(s, path, create, mem);
    if o.r.Err? then o
    else
      OpenFileGood(s, path, create, mem);
      GoodSized(o.s);
      var a := FdAlloc(o.s, p, o.r.value);
      FdAllocGood(o.s, p, o.r.value);
      Out(CloseHandle(a.s, o.r.value), a.r)
  }

  lemma ParentPathGood(s: State, path: seq<string>, mem: Memory)
    requires Good(s)
    ensures Good(ParentPath(s, path, mem).s)
  {
    hide Good, Kept, SameTree, Leads, LookupPath, WalkedTo, Plenty;
    if path != [] { var d := LookupPathIs(s, path[..|path| - 1], mem); }
  }

  lemma OpenFileGood(s: State, path: seq<string>, create: bool, mem: Memory)
    requires Good(s)
    ensures Good(OpenFile(s, path, create, mem).s)
  {
    hide Good, Kept, Leads, Linked, OpenFile;
    var n := OpenFileIs(s, path, create, mem);
  }

  lemma FdAllocGood(s: State, p: Pid, f: nat)
    requires Good(s) && Sized(s)
    ensures Good(FdAlloc(s, p, f).s)
  {
    hide Good, Calm, PutFd;
    if f in s.files {
      FdAllocIs(s, p, f);
      CalmIs(s, FdAlloc(s, p, f).s);
    }
  }

  lemma RootIs(s: State)
    requires Good(s) && Root(s) != 0
    ensures Root(s) in s.vnodes && s.vnodes[Root(s)].node == ROOT && Linked(s, ROOT)
  {
    hide FilesOk, VnodesOk, Tree, Accounted;
    assert NodeOk(s, ROOT);
  }

  /** Following a path and then one more name. */
  lemma {:induction false} LeadsSnoc(nodes: Nodes, n: nat, path: seq<string>, name: string, d: nat, c: nat)
    requires Leads(nodes, n, path, d) && Enters(nodes, d, name, c)
    ensures Leads(nodes, n, path + [name], c)
    decreases |path|
  {
    hide Enters;
    var all := path + [name];
    if path == [] {
      assert all[1..] == [] && Leads(nodes, c, all[1..], c);
    } else {
      var m :| Enters(nodes, n, path[0], m) && Leads(nodes, m, path[1..], d);
      LeadsSnoc(nodes, m, path[1..], name, d, c);
      assert all[1..] == path[1..] + [name];
    }
  }

  /** A tree with more names keeps every path. */
  lemma {:induction false} LeadsGrown(a: Nodes, b: Nodes, n: nat, path: seq<string>, c: nat)
    requires Leads(a, n, path, c) && Grown(a, b) && forall e, x, k :: Has(a, e, x, k) ==> Has(b, e, x, k)
    ensures Leads(b, n, path, c)
    decreases |path|
  {
    hide Has;
    if path != [] {
      var m :| Enters(a, n, path[0], m) && Leads(a, m, path[1..], c);
      assert Enters(b, n, path[0], m);
      LeadsGrown(a, b, m, path[1..], c);
    }
  }

  /** What resolving a path, possibly creating its end, leaves: a linked node's vnode, the files as they were. */
  ghost predicate Reached(s: State, path: seq<string>, o: Out, n: nat) {
    && Good(o.s) && Kept(s, o.s, {}) && o.s.fds == s.fds && o.s.handles == s.handles && o.s.files == s.files
    && (o.r.Ok? ==>
          o.r.value in o.s.vnodes && o.s.vnodes[o.r.value].node == n && Linked(o.s, n)
          && Leads(o.s.nodes, ROOT, path, n))
  }

  lemma LookupPathIs(s: State, path: seq<string>, mem: Memory) returns (n: nat)
    requires Good(s)
    ensures Reached(s, path, LookupPath(s, path, mem), n)
    ensures var o := LookupPath(s, path, mem);
          SameTree(s.nodes, o.s.nodes) && (Root(s) != 0 && Root(s) in s.vnodes ==>
            WalkedTo(s, Root(s), path, mem, o, n))
  {
    hide Good, Kept, SameTree, Leads, Walk, Plenty;
    n := 0;
    if Root(s) == 0 {
      Stays(s, 0);
    } else {
      RootIs(s);
      n := WalkIs(s, Root(s), path, mem);
      LeadsSame(s.nodes, LookupPath(s, path, mem).s.nodes, ROOT, path, n);
    }
  }

  lemma ParentPathIs(s: State, path: seq<string>, mem: Memory) returns (d: nat)
    requires Good(s) && path != []
    ensures var o := ParentPath(s, path, mem); Reached(s, Front(path), o, d) && SameTree(s.nodes, o.s.nodes)
    ensures var r := ParentPath(s, path, mem).r;
            && (r.Ok? ==> LastName(path) !in {".", ".."} && Leads(s.nodes, ROOT, Front(path), d))
            && (r.Err? && Root(s) != 0 && Plenty(mem, path) && LastName(path) !in {".", ".."} ==>
                  forall e :: !Leads(s.nodes, ROOT, Front(path), e))
  {
    hide Good, Kept, SameTree, Leads, LookupPath;
    d := LookupPathIs(s, Front(path), mem);
    if Root(s) != 0 { RootIs(s); }
    LeadsSame(s.nodes, ParentPath(s, path, mem).s.nodes, ROOT, Front(path), d);
  }

  /** A path whose last name its directory lacks, and could take. */
  ghost predicate Makeable(nodes: Nodes, path: seq<string>) {
    && path != [] && !BadName(LastName(path))
    && exists d ::
          Leads(nodes, ROOT, Front(path), d) && d in nodes && nodes[d].dir
          && forall c :: !Has(nodes, d, LastName(path), c)
  }

  /** A path whose last name stands for a file or an empty directory. */
  ghost predicate Removable(nodes: Nodes, path: seq<string>) {
    && path != [] && LastName(path) !in {"", ".", ".."}
    && exists d, n :: Leads(nodes, ROOT, Front(path), d) && Has(nodes, d, LastName(path), n) && nodes[n].kids == []
  }

  lemma MakeableIs(nodes: Nodes, path: seq<string>, d: nat)
    requires Tree(nodes) && path != [] && Leads(nodes, ROOT, Front(path), d) && d in nodes
    ensures Makeable(nodes, path) <==>
          !BadName(LastName(path)) && nodes[d].dir && forall c :: !Has(nodes, d, LastName(path), c)
  {
    hide Tree, Leads, Has;
    forall e | Leads(nodes, ROOT, Front(path), e) ensures e == d { LeadsOnce(nodes, ROOT, Front(path), d, e); }
  }

  lemma MakeableFront(nodes: Nodes, path: seq<string>)
    requires Makeable(nodes, path)
    ensures path != [] && LastName(path) !in {".", ".."} && exists e :: Leads(nodes, ROOT, Front(path), e)
  {
    hide Leads, Has;
  }

  /** Filled caches make no difference to what can be made. */
  lemma SameMakeable(s: State, t: State, path: seq<string>, d: nat)
    requires Good(s) && SameTree(s.nodes, t.nodes) && path != [] && Leads(s.nodes, ROOT, Front(path), d) && d in t.nodes
    ensures Makeable(s.nodes, path) <==>
          !BadName(LastName(path)) && t.nodes[d].dir && forall c :: !Has(t.nodes, d, LastName(path), c)
  {
    hide Leads, Has, Tree, Inv, Accounted, Issued, Makeable;
    assert d in s.nodes;
    MakeableIs(s.nodes, path, d);
    forall c ensures Has(s.nodes, d, LastName(path), c) <==> Has(t.nodes, d, LastName(path), c) {
      HasSame(s.nodes, t.nodes, d, LastName(path), c);
    }
  }

  lemma RemovableIs(nodes: Nodes, path: seq<string>, d: nat)
    requires Tree(nodes) && path != [] && Leads(nodes, ROOT, Front(path), d)
    ensures Removable(nodes, path) <==>
            LastName(path) !in {"", ".", ".."} && exists n :: Has(nodes, d, LastName(path), n) && nodes[n].kids == []
  {
    hide Tree, Leads;
    forall e | Leads(nodes, ROOT, Front(path), e) ensures e == d { LeadsOnce(nodes, ROOT, Front(path), d, e); }
  }

  /** Making a node by path: on success the path leads to it, and it succeeds exactly where the name can be taken. */
  lemma MakePathIs(s: State, path: seq<string>, dir: bool, mem: Memory) returns (n: nat)
    requires Good(s)
    ensures Reached(s, path, MakePath(s, path, dir, mem), n)
    ensures MakePath(s, path, dir, mem).r.Ok? ==> n !in s.nodes
    ensures MakePath(s, path, dir, mem).r.Ok? ==> Makeable(s.nodes, path)
    ensures Root(s) != 0 && Plenty(mem, path) && Makeable(s.nodes, path) ==> MakePath(s, path, dir, mem).r.Ok?
  {
    hide Good, Kept, SameTree, Leads, Create, ParentPath, Has, Makeable;
    n := 0;
    assert path == [] ==>
          !Makeable(s.nodes, path) by { if path == [] && Makeable(s.nodes, path) { MakeableFront(s.nodes, path); } }
    if path == [] {
      StandingIs(s);
      assert ParentPath(s, path, mem) == Out(s, Err(InvalidArgument)) by { NoParent(s, mem); }
    } else {
      n := MakeIn(s, path, dir, mem);
    }
  }

  lemma NoParent(s: State, mem: Memory)
    ensures ParentPath(s, [], mem) == Out(s, Err(InvalidArgument))
  {
  }

  lemma MakeIn(s: State, path: seq<string>, dir: bool, mem: Memory) returns (n: nat)
    requires Good(s) && path != []
    ensures Reached(s, path, MakePath(s, path, dir, mem), n)
    ensures MakePath(s, path, dir, mem).r.Ok? ==> n !in s.nodes
    ensures MakePath(s, path, dir, mem).r.Ok? ==> Makeable(s.nodes, path)
    ensures Root(s) != 0 && Plenty(mem, path) && Makeable(s.nodes, path) ==> MakePath(s, path, dir, mem).r.Ok?
  {
    hide Good, Kept, SameTree, Leads, Create, ParentPath, Has, Makeable;
    var p := ParentPath(s, path, mem);
    var d := ParentPathIs(s, path, mem);
    n := d;
    if p.r.Err? {
      if Makeable(s.nodes, path) { MakeableFront(s.nodes, path); }
    } else {
      var leaf := LastName(path);
      var o := Create(p.s, p.r.value, leaf, dir, mem);
      CreateIs(p.s, p.r.value, leaf, dir, mem);
      SameMakeable(s, p.s, path, d);
      if o.r.Ok? {
        n := p.s.next;
        MadeLeads(p.s, path, d, leaf, dir, o);
        SameKeys(s, p.s, n);
        KeptTwice(s, p.s, o.s);
      }
    }
  }

  lemma SameKeys(s: State, t: State, n: nat)
    requires SameTree(s.nodes, t.nodes) && n !in t.nodes
    ensures n !in s.nodes
  {
  }

  lemma KeptTwice(a: State, b: State, c: State)
    requires Kept(a, b, {}) && Kept(b, c, {})
    ensures Kept(a, c, {})
  {
    hide Lasting, RootsKept;
    var none: set<nat> := {};
    KeptTrans(a, b, c, none, none);
    assert none + none == none;
  }

  lemma MadeLeads(s: State, path: seq<string>, d: nat, name: string, dir: bool, o: Out)
    requires path != [] && name == path[|path| - 1] && Leads(s.nodes, ROOT, path[..|path| - 1], d) && d in s.nodes
        && s.nodes[d].dir
    requires Made(s, d, name, dir, o) && !BadName(name)
    ensures Leads(o.s.nodes, ROOT, path, s.next)
  {
    hide Good, Kept, Leads, Has;
    var front := path[..|path| - 1];
    LeadsGrown(s.nodes, o.s.nodes, ROOT, front, d);
    assert Has(o.s.nodes, d, name, s.next);
    LeadsSnoc(o.s.nodes, ROOT, front, name, d, s.next);
    assert front + [name] == path;
  }

  /** The node behind an open file. */
  function NodeOf(s: State, f: nat): nat {
    if f in s.files && s.files[f].vn in s.vnodes then s.vnodes[s.files[f].vn].node else 0
  }

  /** The new file is the caller's alone and stands for the vnode's node. */
  lemma NewFileGood(s: State, v: nat)
    requires Good(s) && v in s.vnodes
    ensures Calm(s, NewFile(s, v)) && NewFile(s, v).nodes == s.nodes && NewFile(s, v).fds == s.fds
    ensures s.next !in s.files && s.next !in s.handles && NewFile(s, v).handles == s.handles[s.next := s.next]
    ensures NewFile(s, v).files.Keys == s.files.Keys + {s.next} && NewFile(s, v).files[s.next].refs == 1
        && NewFile(s, v).files[s.next].off == 0
        && NodeOf(NewFile(s, v), s.next) == s.vnodes[v].node
  {
    hide Inv, Tree, Has, Accounted;
    New(s);
    NewFileInv(s, v);
    AccountedMade(s, NewFile(s, v));
  }

  /** An open by path: a new file on the node the path leads to, with one reference in the caller's hand. */
  ghost predicate Opened(s: State, path: seq<string>, o: Out, n: nat) {
    && Good(o.s) && Kept(s, o.s, {}) && o.s.fds == s.fds
        && (o.r.Err? ==> o.s.files == s.files && o.s.handles == s.handles)
    && (o.r.Ok? ==>
          var f := o.r.value;
          && f !in s.files && f !in s.handles && o.s.files.Keys == s.files.Keys + {f} && o.s.files[f].refs == 1
              && o.s.files[f].off == 0
              && o.s.handles == s.handles[f := f]
          && NodeOf(o.s, f) == n && Linked(o.s, n) && Leads(o.s.nodes, ROOT, path, n))
  }

  lemma OpenFileIs(s: State, path: seq<string>, create: bool, mem: Memory) returns (n: nat)
    requires Good(s)
    ensures Opened(s, path, OpenFile(s, path, create, mem), n)
  {
    hide Good, Kept, Leads, Linked, LookupPath, MakePath, NewFile, WalkedTo, Makeable, Plenty;
    var l := LookupPath(s, path, mem);
    n := LookupPathIs(s, path, mem);
    var o := l;
    if l.r == Err(NotFound) && create {
      n := MakePathIs(l.s, path, false, mem);
      o := MakePath(l.s, path, false, mem);
      KeptTwice(s, l.s, o.s);
    }
    if o.r.Ok? {
      NewFileGood(o.s, o.r.value);
      CalmIs(o.s, NewFile(o.s, o.r.value));
      KeptTwice(s, o.s, NewFile(o.s, o.r.value));
      LinkedSame(o.s, NewFile(o.s, o.r.value), n);
    }
  }

  /** A path that can be opened: one that leads somewhere, or whose last name may and can be made. */
  ghost predicate CanOpen(nodes: Nodes, path: seq<string>, create: bool) {
    (exists n :: Leads(nodes, ROOT, path, n)) || (create && Makeable(nodes, path))
  }

  /** Walking one name further. */
  lemma {:induction false} WalkSnoc(s: State, cur: nat, path: seq<string>, name: string, mem: Memory)
    requires |name| <= NAME_MAX
    ensures var o := Walk(s, cur, path, mem);
            Walk(s, cur, path + [name], mem) == if o.r.Err? then o else Lookup(o.s, o.r.value, name, mem)
    decreases |path|
  {
    hide Lookup;
    var all := path + [name];
    if path == [] {
      var o := Lookup(s, cur, name, mem);
      assert all[0] == name && all[1..] == [];
      assert o.r.Ok? ==> Walk(o.s, o.r.value, [], mem) == o;
    } else {
      assert all[0] == path[0] && all[1..] == path[1..] + [name];
      var o := Lookup(s, cur, path[0], mem);
      if |path[0]| <= NAME_MAX && o.r.Ok? { WalkSnoc(o.s, o.r.value, path[1..], name, mem); }
    }
  }

  /** Walking drops no cached vnode. */
  lemma {:induction false} WalkCaches(s: State, cur: nat, path: seq<string>, mem: Memory, n: nat)
    requires n in s.nodes && s.nodes[n].cache != 0
    ensures var t := Walk(s, cur, path, mem).s; n in t.nodes && t.nodes[n].cache != 0
    decreases |path|
  {
    if path != [] && |path[0]| <= NAME_MAX {
      var o := Lookup(s, cur, path[0], mem);
      if o.r.Ok? { WalkCaches(o.s, o.r.value, path[1..], mem, n); }
    }
  }

  lemma MakeableSame(a: Nodes, b: Nodes, path: seq<string>)
    requires SameTree(a, b) && Makeable(a, path)
    ensures Makeable(b, path)
  {
    hide Leads, Has;
    var d :| Leads(a, ROOT, Front(path), d) && d in a && a[d].dir && forall c :: !Has(a, d, LastName(path), c);
    LeadsSame(a, b, ROOT, Front(path), d);
    forall c ensures !Has(b, d, LastName(path), c) { HasSame(a, b, d, LastName(path), c); }
  }

  lemma SameTreeBack(a: Nodes, b: Nodes)
    requires SameTree(a, b)
    ensures SameTree(b, a)
  {
  }

  /** A name no child has is not found. */
  lemma LacksName(s: State, v: nat, name: string, mem: Memory)
    requires Good(s) && v in s.vnodes && Linked(s, s.vnodes[v].node) && s.nodes[s.vnodes[v].node].dir && !BadName(name)
    requires forall c :: !Has(s.nodes, s.vnodes[v].node, name, c)
    ensures Lookup(s, v, name, mem) == Out(s, Err(NotFound))
  {
    hide Inv, Tree, Has, Accounted, Issued;
    var d := s.vnodes[v].node;
    var kids := s.nodes[d].kids;
    var i := FirstNamed(s.nodes, kids, name);
    if i < |kids| { FindIsHas(s.nodes, d, name, kids[i]); }
  }

  /** What can be made is not found, which is what makes vfs_open make it. */
  lemma NotThere(s: State, path: seq<string>, mem: Memory)
    requires Good(s) && Root(s) != 0 && Plenty(mem, path) && Makeable(s.nodes, path)
    ensures LookupPath(s, path, mem).r == Err(NotFound)
  {
    hide Good, Kept, SameTree, Leads, Lookup, Makeable, Has, BadName;
    MakeableFront(s.nodes, path);
    RootIs(s);
    var o := LookupPath(s, Front(path), mem);
    var d := LookupPathIs(s, Front(path), mem);
    assert |LastName(path)| <= NAME_MAX && path == Front(path) + [LastName(path)];
    WalkSnoc(s, Root(s), Front(path), LastName(path), mem);
    SameMakeable(s, o.s, path, d);
    LacksName(o.s, o.r.value, LastName(path), mem);
  }

  /** An open succeeds only on a path that can be opened, and on every one if there is memory and the names fit. */
  lemma OpenFileExact(s: State, path: seq<string>, create: bool, mem: Memory)
    requires Good(s)
    ensures OpenFile(s, path, create, mem).r.Ok? ==> Root(s) != 0 && CanOpen(s.nodes, path, create)
    ensures Root(s) != 0 && Plenty(mem, path) && CanOpen(s.nodes, path, create) ==>
              OpenFile(s, path, create, mem).r.Ok?
  {
    hide Good, Kept, SameTree, Leads, Linked, LookupPath, MakePath, NewFile, Makeable;
    if Root(s) == 0 {
      NoRoot(s, path, create, mem);
      return;
    }
    RootIs(s);
    var l := LookupPath(s, path, mem);
    var n := LookupPathIs(s, path, mem);
    if l.r == Err(NotFound) && create {
      var m := MakePathIs(l.s, path, false, mem);
      SameTreeBack(s.nodes, l.s.nodes);
      if MakePath(l.s, path, false, mem).r.Ok? { MakeableSame(l.s.nodes, s.nodes, path); }
      if Makeable(s.nodes, path) { MakeableSame(s.nodes, l.s.nodes, path); }
      StillRoot(s, path, mem);
    } else if create && Plenty(mem, path) && Makeable(s.nodes, path) {
      NotThere(s, path, mem);
    }
  }

  lemma NoRoot(s: State, path: seq<string>, create: bool, mem: Memory)
    requires Root(s) == 0
    ensures OpenFile(s, path, create, mem).r.Err?
  {
  }

  lemma StillRoot(s: State, path: seq<string>, mem: Memory)
    requires Root(s) != 0
    ensures Root(LookupPath(s, path, mem).s) != 0
  {
    WalkCaches(s, Root(s), path, mem, ROOT);
  }

  lemma LinkedSame(s: State, s': State, n: nat)
    requires s'.nodes == s.nodes
    ensures Linked(s', n) <==> Linked(s, n)
  {
  }

  /** Success: the lowest free descriptor holds the new file, which nobody else holds. Failure: nothing is held. */
  ghost predicate OpenedFd(s: State, p: Pid, path: seq<string>, o: Out, n: nat) {
    && Good(o.s) && Kept(s, o.s, {}) && o.s.handles == s.handles
        && (o.r.Err? ==> o.s.fds == s.fds && o.s.files.Keys == s.files.Keys)
    && (o.r.Ok? ==>
          && Sized(s) && FD_FIRST <= o.r.value < FD_MAX && s.fds[Slot(p, o.r.value)] == 0
          && (forall j :: FD_FIRST <= j < o.r.value ==> s.fds[Slot(p, j)] != 0)
          && exists f ::
                f !in s.files && o.s.fds == s.fds[Slot(p, o.r.value) := f] && f in o.s.files && o.s.files[f].refs == 1
                         && o.s.files[f].off == 0
                         && NodeOf(o.s, f) == n && Linked(o.s, n) && Leads(o.s.nodes, ROOT, path, n))
  }

  /** With a descriptor holding it, the caller's reference just goes down. */
  lemma GiveBack(s: State, i: nat, f: nat)
    requires i < |s.fds| && f in s.files && s.files[f].refs == 1 && f in s.handles && s.handles[f] == f
        && Good(PutFd(s, i, f))
    ensures var t := CloseHandle(PutFd(s, i, f), f);
            t.nodes == s.nodes && t.vnodes == s.vnodes && f in t.files && t.files[f] == s.files[f]
                && t.fds == s.fds[i := f]
  {
    hide Good;
  }

  /** Without a descriptor, the last reference goes and the file with it. */
  lemma GiveUp(s: State, f: nat)
    requires Good(s) && f in s.files && s.files[f].refs == 1 && f in s.handles && s.handles[f] == f
    ensures Holders(s.(handles := s.handles - {f}), f) == 0
  {
    hide VnodesOk, NodesOk, Tree, SlotSet, HandleSet, Accounted;
    assert FileOk(s, f, 0);
    HandleDrop(s.handles, f, f);
  }

  /** The opened file as SYS_open gets it. */
  ghost predicate Fresh(s: State, path: seq<string>, t: State, f: nat, n: nat) {
    && Good(t) && Kept(s, t, {}) && t.fds == s.fds && f !in s.files && f !in s.handles
        && t.files.Keys == s.files.Keys + {f}
    && t.files[f].refs == 1 && t.files[f].off == 0 && t.handles == s.handles[f := f] && NodeOf(t, f) == n
        && Linked(t, n)
        && Leads(t.nodes, ROOT, path, n)
  }

  lemma HandleBack(s: State, t: State, f: nat, u: State)
    requires Good(t) && Kept(s, t, {}) && Calm(t, u) && f !in s.handles && t.handles == s.handles[f := f]
        && u.handles == t.handles && t.fds == s.fds
    requires f in t.files && f in u.files
    ensures Good(u) && Good(CloseHandle(u, f)) && Kept(s, CloseHandle(u, f), {})
    ensures CloseHandle(u, f).handles == s.handles && CloseHandle(u, f).fds == u.fds
  {
    hide Good, Kept, CloseHandle, Has, Holders;
    CloseHandleIs(u, f);
    KeptTwice(s, t, u);
    KeptTwice(s, u, CloseHandle(u, f));
    assert (s.handles[f := f]) - {f} == s.handles;
  }

  /** A descriptor is found: the file moves there from the caller's hand. */
  lemma Moved(t: State, p: Pid, f: nat)
    requires Good(t) && f in t.files && t.files[f].refs == 1 && f in t.handles && t.handles[f] == f && Sized(t)
        && FdAlloc(t, p, f).r.Ok?
    ensures Good(FdAlloc(t, p, f).s)
    ensures var u := CloseHandle(FdAlloc(t, p, f).s, f);
            && u.nodes == t.nodes && u.vnodes == t.vnodes && f in u.files && u.files[f] == t.files[f]
            && FD_FIRST <= FdAlloc(t, p, f).r.value < FD_MAX && u.fds == t.fds[Slot(p, FdAlloc(t, p, f).r.value) := f]
  {
    hide Good, CloseHandle, PutFd, FdAlloc, Calm;
    FdAllocGood(t, p, f);
    FdAllocShape(t, p, f);
    GiveBack(t, Slot(p, FdAlloc(t, p, f).r.value), f);
  }

  /** No descriptor is found: the file goes. */
  lemma Lost(t: State, f: nat)
    requires Good(t) && f in t.files && t.files[f].refs == 1 && f in t.handles && t.handles[f] == f
    ensures CloseHandle(t, f).files.Keys == t.files.Keys - {f}
  {
    hide Good, CloseHandle, Calm, Holders;
    CloseHandleIs(t, f);
    GiveUp(t, f);
  }

  lemma OpenTakes(s: State, p: Pid, path: seq<string>, t: State, f: nat, n: nat)
    requires Fresh(s, path, t, f, n) && Sized(t) && FdAlloc(t, p, f).r.Ok?
    ensures Good(FdAlloc(t, p, f).s) && OpenedFd(s, p, path,
        Out(CloseHandle(FdAlloc(t, p, f).s, f), FdAlloc(t, p, f).r), n)
  {
    hide Good, Kept, Leads, Linked, CloseHandle, FdAlloc, Calm;
    NotZero(t);
    FdAllocIs(t, p, f);
    HandleBack(s, t, f, FdAlloc(t, p, f).s);
    Moved(t, p, f);
    var u := CloseHandle(FdAlloc(t, p, f).s, f);
    LinkedSame(t, u, n);
    assert f !in s.files && u.fds == s.fds[Slot(p, FdAlloc(t, p, f).r.value) := f] && NodeOf(u, f) == n;
  }

  lemma OpenRefused(s: State, p: Pid, path: seq<string>, t: State, f: nat, n: nat)
    requires Fresh(s, path, t, f, n) && Sized(t) && FdAlloc(t, p, f).r.Err?
    ensures Good(FdAlloc(t, p, f).s) && OpenedFd(s, p, path,
        Out(CloseHandle(FdAlloc(t, p, f).s, f), FdAlloc(t, p, f).r), n)
  {
    hide Good, Kept, Leads, Linked, CloseHandle, FdAlloc, Calm;
    FdAllocIs(t, p, f);
    HandleBack(s, t, f, FdAlloc(t, p, f).s);
    Lost(t, f);
  }

  /** SYS_open gives the lowest free descriptor on the node its path leads to, or leaves nothing held. */
  lemma OpenIs(s: State, p: Pid, path: seq<string>, create: bool, mem: Memory) returns (n: nat)
    requires Good(s)
    ensures OpenedFd(s, p, path, Open(s, p, path, create, mem), n)
  {
    hide Good, Kept, Leads, Linked, OpenFile, CloseHandle, FdAlloc;
    var o := OpenFile(s, path, create, mem);
    n := OpenFileIs(s, path, create, mem);
    if o.r.Ok? {
      GoodSized(o.s);
      if FdAlloc(o.s, p, o.r.value).r.Ok? { OpenTakes(s, p, path, o.s, o.r.value, n);
            } else { OpenRefused(s, p, path, o.s, o.r.value, n); }
    }
  }

  /** A process has a descriptor left to give out. */
  predicate HasFree(s: State, p: Pid)
    requires Sized(s)
  {
    FindFree(s, p, FD_FIRST) < FD_MAX
  }

  /** SYS_open succeeds only on a path that can be opened and with a descriptor left, and then always if there is
      memory and the names fit; a full table is told apart. */
  lemma OpenExact(s: State, p: Pid, path: seq<string>, create: bool, mem: Memory)
    requires Good(s) && Sized(s)
    ensures Open(s, p, path, create, mem).r.Ok? ==>
              Root(s) != 0 && CanOpen(s.nodes, path, create) && HasFree(s, p)
    ensures Root(s) != 0 && Plenty(mem, path) && CanOpen(s.nodes, path, create) ==>
              if HasFree(s, p) then Open(s, p, path, create, mem).r.Ok?
              else Open(s, p, path, create, mem).r == Err(TooManyOpenFiles)
  {
    hide Good, Kept, Leads, Linked, OpenFile, CloseHandle, CanOpen, Plenty, FindFree;
    var o := OpenFile(s, path, create, mem);
    OpenFileExact(s, path, create, mem);
    var n := OpenFileIs(s, path, create, mem);
    if o.r.Ok? {
      GoodSized(o.s);
      FreeSame(s, o.s, p, FD_FIRST);
    }
  }

  lemma {:induction false} FreeSame(s: State, t: State, p: Pid, fd: nat)
    requires Sized(s) && Sized(t) && s.fds == t.fds && fd <= FD_MAX
    ensures FindFree(s, p, fd) == FindFree(t, p, fd)
    decreases FD_MAX - fd
  {
    if fd < FD_MAX { FreeSame(s, t, p, fd + 1); }
  }
}
