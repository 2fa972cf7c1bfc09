/** Path normalisation, as the kernel's syscall_resolve_path and the copy command's normalize_path do it. */
module Path {
  import opened Machine

  /** The characters up to the next slash. */
  function WordLen(p: string): (n: nat)
    ensures n <= |p| && (n < |p| ==> p[n] == '/') && forall k :: 0 <= k < n ==> p[k] != '/'
    ensures p != "" && p[0] != '/' ==> 0 < n
  {
    if p == "" || p[0] == '/' then 0 else 1 + WordLen(p[1..])
  }

  /** The components of a path: the stretches between slashes, empty ones left out. */
  function Components(p: string): (r: seq<string>)
    ensures forall i :: 0 <= i < |r| ==> IsWord(r[i])
  {
    if p == "" then []
    else if p[0] == '/' then Components(p[1..])
    else [p[..WordLen(p)]] + Components(p[WordLen(p)..])
  }

  predicate IsWord(c: string) { c != "" && '/' !in c }

  /** The text up to its last slash, the slash included; at least one character stays. */
  function CutBack(s: string): (r: string)
    requires s != ""
    ensures r != "" && r <= s
  {
    if |s| > 1 && s[|s| - 1] != '/' then CutBack(s[..|s| - 1]) else s
  }

  /** What ".." does to the text so far. */
  function Pop(s: string): (r: string)
    requires s != ""
    ensures r != "" && |r| <= |s|
  {
    if |s| <= 1 then s
    else
      var t := CutBack(s);
      if |t| > 1 then t[..|t| - 1] else t
  }

  /** What a name does to it. */
  function Push(s: string, c: string): string {
    (if |s| > 1 then s + "/" else s) + c
  }

  datatype Outcome = Fine(text: string) | TooLong

  /** One component after the other; a name that does not fit, with the final zero, ends it. */
  function Walk(s: string, cs: seq<string>, capacity: nat): Outcome
    requires s != ""
    decreases |cs|
  {
    if cs == [] then Fine(s)
    else if cs[0] == "." then Walk(s, cs[1..], capacity)
    else if cs[0] == ".." then Walk(Pop(s), cs[1..], capacity)
    else
      var t := Push(s, cs[0]);
      if |t| >= capacity then TooLong else Walk(t, cs[1..], capacity)
  }

  /** Where a walk starts: at the root, or at the working directory. */
  predicate Startable(cwd: string, path: string, capacity: nat) {
    (path != "" && path[0] == '/') || (cwd != "" && cwd[0] == '/' && |cwd| < capacity)
  }

  function Start(cwd: string, path: string): string {
    if path != "" && path[0] == '/' then "/" else cwd
  }

  /** syscall_resolve_path. */
  method ResolvePath(cwd: string, path: string, capacity: nat) returns (r: Errno, out: string)
    ensures r == if path == "" || capacity < 2 then InvalidArgument
                 else if !Startable(cwd, path, capacity) then Internal
                 else if Walk(Start(cwd, path), Components(path), capacity) == TooLong then NameTooLong
                 else Success
    ensures r == Success ==> Fine(out) == Walk(Start(cwd, path), Components(path), capacity)
    ensures Rooted(cwd, path) ==>
              && (r == Success <==> path != "" && 2 <= capacity && Startable(cwd, path, capacity)
                                    && AllFit(StackOf(cwd, path), Components(path), capacity))
              && (r == Success ==> out == Render(Fold(StackOf(cwd, path), Components(path))))
  {
    hide Pop, Components, WordLen, Render, Fold, AllFit, Rooted;
    ghost var exact := path != "" && 2 <= capacity && Startable(cwd, path, capacity) && Rooted(cwd, path);
    if exact { ResolveExact(cwd, path, capacity); }
    out := "";
    if path == "" || capacity < 2 { return InvalidArgument, out; }
    if path[0] == '/' {
      out := "/";
    } else {
      if cwd == "" || cwd[0] != '/' || |cwd| >= capacity { return Internal, out; }
      out := cwd;
    }
    var cursor: nat := 0;
    assert path[0..] == path;
    while cursor < |path|
      invariant cursor <= |path| && out != "" && |out| < capacity
      invariant Walk(out, Components(path[cursor..]), capacity) == Walk(Start(cwd, path), Components(path), capacity)
    {
      cursor := SkipSeparators(path, cursor);
      if cursor == |path| {
        break;
      }
      var length := ComponentLength(path, cursor);
      var component := path[cursor..cursor + length];
      ComponentStep(path, cursor, length);
      cursor := cursor + length;
      if component == "." { continue; }
      if component == ".." {
        out := PopText(out);
        continue;
      }
      var separator := if |out| > 1 then 1 else 0;
      if |out| >= capacity - separator || length >= capacity - |out| - separator { return NameTooLong, out; }
      if separator == 1 { out := out + "/"; }
      out := out + component;
    }
    NoComponents(path, cursor);
    r := Success;
  }

  /** The loop over slashes. */
  method SkipSeparators(path: string, from: nat) returns (cursor: nat)
    requires from <= |path|
    ensures from <= cursor <= |path| && (cursor < |path| ==>
          path[cursor] != '/') && Components(path[cursor..]) == Components(path[from..])
  {
    hide WordLen;
    cursor := from;
    while cursor < |path| && path[cursor] == '/'
      invariant from <= cursor <= |path| && Components(path[cursor..]) == Components(path[from..])
    {
      assert path[cursor..][1..] == path[cursor + 1..];
      cursor := cursor + 1;
    }
  }

  /** The loop over a component's characters. */
  method ComponentLength(path: string, cursor: nat) returns (n: nat)
    requires cursor < |path| && path[cursor] != '/'
    ensures n == WordLen(path[cursor..]) && 0 < n && cursor + n <= |path|
  {
    n := 0;
    while cursor + n < |path| && path[cursor + n] != '/'
      invariant cursor + n <= |path| && forall k :: cursor <= k < cursor + n ==> path[k] != '/'
    {
      n := n + 1;
    }
    WordLenIs(path[cursor..], n);
  }

  lemma {:induction false} WordLenIs(p: string, n: nat)
    requires n <= |p| && (n < |p| ==> p[n] == '/') && forall k :: 0 <= k < n ==> p[k] != '/'
    ensures WordLen(p) == n
  {
    if n > 0 {
      assert p[0] != '/';
      forall k | 0 <= k < n - 1 ensures p[1..][k] != '/' { assert p[k + 1] != '/'; }
      WordLenIs(p[1..], n - 1);
    }
  }

  lemma ComponentStep(path: string, cursor: nat, n: nat)
    requires cursor < |path| && path[cursor] != '/' && n == WordLen(path[cursor..])
    ensures cursor + n <= |path| && Components(path[cursor..]) ==
        [path[cursor..cursor + n]] + Components(path[cursor + n..])
  {
    var p := path[cursor..];
    assert p[..n] == path[cursor..cursor + n] && p[n..] == path[cursor + n..];
  }

  lemma NoComponents(path: string, cursor: nat)
    requires cursor == |path|
    ensures Components(path[cursor..]) == []
  {
  }

  /** The two loops that ".." runs backwards over the text. */
  method PopText(s: string) returns (r: string)
    requires s != ""
    ensures r == Pop(s)
  {
    r := s;
    if |r| > 1 {
      while |r| > 1 && r[|r| - 1] != '/'
        invariant r != "" && CutBack(r) == CutBack(s)
        decreases |r|
      {
        r := r[..|r| - 1];
      }
      if |r| > 1 { r := r[..|r| - 1]; }
    }
  }

  /** normalize_path of the copy command. */
  method NormalizePath(path: string, cwd: string, capacity: nat) returns (ok: bool, out: string)
    ensures ok <==>
          capacity >= 2 && Startable(cwd, path, capacity)
          && Walk(Start(cwd, path), Components(path), capacity) != TooLong
    ensures ok ==> Fine(out) == Walk(Start(cwd, path), Components(path), capacity)
    ensures Rooted(cwd, path) ==>
              && (ok <==> 2 <= capacity && Startable(cwd, path, capacity)
                          && AllFit(StackOf(cwd, path), Components(path), capacity))
              && (ok ==> out == Render(Fold(StackOf(cwd, path), Components(path))))
  {
    hide Pop, Components, WordLen, Render, Fold, AllFit, Rooted;
    ghost var exact := 2 <= capacity && Startable(cwd, path, capacity) && Rooted(cwd, path);
    if exact { ResolveExact(cwd, path, capacity); }
    out := "";
    if capacity < 2 { return false, out; }
    if path != "" && path[0] == '/' {
      out := "/";
    } else {
      if cwd == "" || cwd[0] != '/' { return false, out; }
      if |cwd| >= capacity { return false, out; }
      out := cwd;
    }
    var at: nat := 0;
    assert path[0..] == path;
    while at < |path|
      invariant at <= |path| && out != "" && |out| < capacity
      invariant Walk(out, Components(path[at..]), capacity) == Walk(Start(cwd, path), Components(path), capacity)
    {
      at := SkipSeparators(path, at);
      if at == |path| { break; }
      var length := ComponentLength(path, at);
      var component := path[at..at + length];
      ComponentStep(path, at, length);
      at := at + length;
      if component == "." { continue; }
      if component == ".." {
        out := PopText(out);
        continue;
      }
      var separator := if |out| > 1 then 1 else 0;
      if |out| + separator + length + 1 > capacity { return false, out; }
      if separator == 1 { out := out + "/"; }
      out := out + component;
    }
    NoComponents(path, at);
    ok := true;
  }

  /** A component that names something. */
  predicate IsName(c: string) { IsWord(c) && c != "." && c != ".." }

  predicate IsStack(st: seq<string>) { forall i :: 0 <= i < |st| ==> IsName(st[i]) }

  /** The path to a stack of names. */
  function Render(st: seq<string>): (s: string)
    ensures s != "" && s[0] == '/'
  {
    if st == [] then "/" else Push(Render(st[..|st| - 1]), st[|st| - 1])
  }

  /** The components of a path, folded over a stack of names. */
  function Fold(st: seq<string>, cs: seq<string>): seq<string>
    decreases |cs|
  {
    if cs == [] then st
    else if cs[0] == "." then Fold(st, cs[1..])
    else if cs[0] == ".." then Fold(if st == [] then [] else st[..|st| - 1], cs[1..])
    else Fold(st + [cs[0]], cs[1..])
  }

  lemma {:induction false} FoldStack(st: seq<string>, cs: seq<string>)
    requires IsStack(st) && forall i :: 0 <= i < |cs| ==> IsWord(cs[i])
    ensures IsStack(Fold(st, cs))
    decreases |cs|
  {
    if cs != [] {
      FoldStack(if cs[0] == "." then st else
            if cs[0] == ".." then if st == [] then [] else st[..|st| - 1] else st + [cs[0]], cs[1..]);
    }
  }

  /** The text in front of a name in a rendered path: it ends in the slash. */
  function Lead(s: string): string { if |s| > 1 then s + "/" else s }

  lemma {:induction false} CutWord(pre: string, c: string)
    requires pre != "" && pre[|pre| - 1] == '/' && '/' !in c
    ensures CutBack(pre + c) == pre
  {
    var s, n := pre + c, |c|;
    if n > 0 {
      assert s[|s| - 1] == c[n - 1] && c[n - 1] in c;
      assert s[..|s| - 1] == pre + c[..n - 1];
      CutWord(pre, c[..n - 1]);
    } else {
      assert s == pre;
    }
  }

  /** ".." takes the last name off a rendered path; at the root it does nothing. */
  lemma PopRender(st: seq<string>)
    requires IsStack(st)
    ensures Pop(Render(st)) == Render(if st == [] then [] else st[..|st| - 1])
  {
    if st != [] {
      var n := |st| - 1;
      var s, c := Render(st[..n]), st[n];
      assert IsName(c);
      CutWord(Lead(s), c);
    }
  }

  lemma PushRender(st: seq<string>, c: string)
    ensures Push(Render(st), c) == Render(st + [c])
  {
    assert (st + [c])[..|st|] == st;
  }

  /** The text the walk builds is the rendered fold, whenever everything fits. */
  lemma {:induction false} WalkIsFold(st: seq<string>, cs: seq<string>, capacity: nat)
    requires IsStack(st) && forall i :: 0 <= i < |cs| ==> IsWord(cs[i])
    ensures Walk(Render(st), cs, capacity).Fine? ==> Walk(Render(st), cs, capacity).text == Render(Fold(st, cs))
    ensures |Render(st)| < capacity && Walk(Render(st), cs, capacity).Fine? ==>
          |Walk(Render(st), cs, capacity).text| < capacity
    decreases |cs|
  {
    hide Render, Pop, Push;
    if cs != [] {
      PopRender(st);
      PushRender(st, cs[0]);
      WalkIsFold(if cs[0] == "." then st else
            if cs[0] == ".." then if st == [] then [] else st[..|st| - 1] else st + [cs[0]], cs[1..], capacity);
      ShorterPop(st);
    }
  }

  /** What one component does to the stack. */
  function Turn(st: seq<string>, c: string): seq<string> {
    if c == "." then st else if c == ".." then if st == [] then [] else st[..|st| - 1] else st + [c]
  }

  /** Every path met on the way fits, with its final zero. */
  ghost predicate AllFit(st: seq<string>, cs: seq<string>, capacity: nat) {
    forall k :: 0 <= k <= |cs| ==> |Render(Fold(st, cs[..k]))| < capacity
  }

  lemma AllFitStep(st: seq<string>, cs: seq<string>, capacity: nat)
    requires cs != []
    ensures AllFit(st, cs, capacity) <==> |Render(st)| < capacity && AllFit(Turn(st, cs[0]), cs[1..], capacity)
  {
    hide Render;
    assert cs[..0] == [] && Fold(st, []) == st;
    forall k | 0 < k <= |cs| ensures Fold(st, cs[..k]) == Fold(Turn(st, cs[0]), cs[1..][..k - 1]) {
      assert cs[..k][0] == cs[0] && cs[..k][1..] == cs[1..][..k - 1];
    }
    if |Render(st)| < capacity && AllFit(Turn(st, cs[0]), cs[1..], capacity) {
      forall k | 0 <= k <= |cs| ensures |Render(Fold(st, cs[..k]))| < capacity {
        if k > 0 { assert |Render(Fold(Turn(st, cs[0]), cs[1..][..k - 1]))| < capacity; }
      }
    }
    if AllFit(st, cs, capacity) {
      assert |Render(Fold(st, cs[..0]))| < capacity;
      forall k | 0 <= k <= |cs| - 1 ensures |Render(Fold(Turn(st, cs[0]), cs[1..][..k]))| < capacity {
        assert |Render(Fold(st, cs[..k + 1]))| < capacity;
      }
    }
  }

  /** A walk succeeds exactly when every path on the way fits. */
  lemma {:induction false} WalkExact(st: seq<string>, cs: seq<string>, capacity: nat)
    requires IsStack(st) && (forall i :: 0 <= i < |cs| ==> IsWord(cs[i])) && |Render(st)| < capacity
    ensures Walk(Render(st), cs, capacity).Fine? <==> AllFit(st, cs, capacity)
    decreases |cs|
  {
    hide Render, Pop, Push, AllFit;
    if cs == [] {
      NothingToFit(st, capacity);
    } else {
      PopRender(st);
      PushRender(st, cs[0]);
      ShorterPop(st);
      AllFitStep(st, cs, capacity);
      if |Render(Turn(st, cs[0]))| < capacity {
        WalkExact(Turn(st, cs[0]), cs[1..], capacity);
      } else {
        FirstFits(Turn(st, cs[0]), cs[1..], capacity);
      }
    }
  }

  lemma NothingToFit(st: seq<string>, capacity: nat)
    ensures AllFit(st, [], capacity) <==> |Render(st)| < capacity
  {
    hide Render;
    var none: seq<string> := [];
    assert none[..0] == none && Fold(st, none) == st;
    if |Render(st)| < capacity {
      forall k | 0 <= k <= 0 ensures |Render(Fold(st, none[..k]))| < capacity { assert none[..k] == none; }
    } else {
      assert !(|Render(Fold(st, none[..0]))| < capacity);
    }
  }

  lemma FirstFits(st: seq<string>, cs: seq<string>, capacity: nat)
    ensures AllFit(st, cs, capacity) ==> |Render(st)| < capacity
  {
    hide Render;
    assert cs[..0] == [] && Fold(st, []) == st;
    if AllFit(st, cs, capacity) { assert |Render(Fold(st, cs[..0]))| < capacity; }
  }

  /** The names a walk starts from. */
  function StackOf(cwd: string, path: string): seq<string> {
    if path != "" && path[0] == '/' then [] else Components(cwd)
  }

  /** An absolute path, or one to a working directory as chdir leaves it. */
  ghost predicate Rooted(cwd: string, path: string) { (path != "" && path[0] == '/') || Canonical(cwd) }

  /** When a path resolves, and to what. */
  lemma ResolveExact(cwd: string, path: string, capacity: nat)
    requires 2 <= capacity && Startable(cwd, path, capacity) && Rooted(cwd, path)
    ensures var w, st, cs := Walk(Start(cwd, path), Components(path), capacity), StackOf(cwd, path), Components(path);
            (w.Fine? <==> AllFit(st, cs, capacity)) && (w.Fine? ==> w.text == Render(Fold(st, cs)))
  {
    hide Render, Walk, Components, AllFit, Fold;
    var st := StackOf(cwd, path);
    RootIs();
    assert Start(cwd, path) == Render(st) && IsStack(st);
    WalkExact(st, Components(path), capacity);
    WalkIsFold(st, Components(path), capacity);
  }

  lemma ShorterPop(st: seq<string>)
    requires IsStack(st)
    ensures |Render(if st == [] then [] else st[..|st| - 1])| <= |Render(st)|
  {
    if st != [] { assert IsName(st[|st| - 1]); }
  }

  lemma {:induction false} ComponentsWord(c: string, rest: string)
    requires IsWord(c) && (rest == "" || rest[0] == '/')
    ensures Components(c + rest) == [c] + Components(rest)
  {
    var p := c + rest;
    forall k | 0 <= k < |c| ensures p[k] != '/' { assert p[k] == c[k] && c[k] in c; }
    WordLenIs(p, |c|);
    assert p[..|c|] == c && p[|c|..] == rest;
  }

  /** Slashes do not matter to the components. */
  lemma {:induction false} ComponentsAppend(a: string, c: string)
    requires a != "" && a[|a| - 1] == '/' && IsWord(c)
    ensures Components(a + c) == Components(a) + [c]
    decreases |a|
  {
    if a[0] == '/' {
      assert (a + c)[1..] == a[1..] + c;
      if |a| > 1 {
        ComponentsAppend(a[1..], c);
      } else {
        assert a[1..] + c == c;
        assert c + "" == c;
        ComponentsWord(c, "");
      }
    } else {
      var n := WordLen(a);
      assert n < |a| && a == a[..n] + a[n..];
      ComponentsWord(a[..n], a[n..]);
      assert a + c == a[..n] + (a[n..] + c);
      ComponentsWord(a[..n], a[n..] + c);
      ComponentsAppend(a[n..], c);
    }
  }

  lemma {:induction false} ComponentsSlash(a: string)
    ensures Components(a + "/") == Components(a)
    decreases |a|
  {
    if a == "" {
      assert a + "/" == "/" && "/"[1..] == "";
    } else if a[0] == '/' {
      assert (a + "/")[1..] == a[1..] + "/";
      ComponentsSlash(a[1..]);
    } else {
      var n := WordLen(a);
      assert a == a[..n] + a[n..] && a + "/" == a[..n] + (a[n..] + "/");
      ComponentsWord(a[..n], a[n..]);
      ComponentsWord(a[..n], a[n..] + "/");
      ComponentsSlash(a[n..]);
    }
  }

  /** Reading a rendered path gives the stack back. */
  lemma {:induction false} RenderRoundTrip(st: seq<string>)
    requires IsStack(st)
    ensures Components(Render(st)) == st
  {
    if st == [] {
      assert "/"[1..] == "";
    } else {
      var n := |st| - 1;
      var s, c := Render(st[..n]), st[n];
      assert IsName(c);
      RenderRoundTrip(st[..n]);
      ComponentsSlash(s);
      ComponentsAppend(Lead(s), c);
    }
  }

  /** Absolute, with no empty, "." or ".." component and no trailing slash. */
  predicate Canonical(s: string) { IsStack(Components(s)) && s == Render(Components(s)) }

  lemma RenderCanonical(st: seq<string>)
    requires IsStack(st)
    ensures Canonical(Render(st))
  {
    RenderRoundTrip(st);
  }

  /** Every accepted result is canonical, if the path is absolute or the working directory is canonical. */
  lemma ResolveCanonical(cwd: string, path: string, capacity: nat)
    requires capacity >= 2 && Startable(cwd, path, capacity) && ((path != "" && path[0] == '/') || Canonical(cwd))
    requires Walk(Start(cwd, path), Components(path), capacity).Fine?
    ensures var out, st := Walk(Start(cwd, path), Components(path), capacity).text, if path != ""
        && path[0] == '/' then [] else Components(cwd);
            Canonical(out) && |out| < capacity && out == Render(Fold(st, Components(path)))
  {
    hide Render, Walk, Components;
    var st := if path != "" && path[0] == '/' then [] else Components(cwd);
    RootIs();
    WalkIsFold(st, Components(path), capacity);
    FoldStack(st, Components(path));
    RenderCanonical(Fold(st, Components(path)));
  }

  lemma RootIs()
    ensures Render([]) == "/"
  {
  }

  lemma {:induction false} PrefixShorter(st: seq<string>, k: nat)
    requires k <= |st|
    ensures |Render(st[..k])| <= |Render(st)|
  {
    if k < |st| {
      PrefixShorter(st[..|st| - 1], k);
      assert st[..|st| - 1][..k] == st[..k];
    } else {
      assert st[..k] == st;
    }
  }

  /** A stack of names, walked from one of its prefixes. */
  lemma {:induction false} WalkNames(st: seq<string>, k: nat, capacity: nat)
    requires IsStack(st) && k <= |st| && |Render(st)| < capacity
    ensures Walk(Render(st[..k]), st[k..], capacity) == Fine(Render(st))
    decreases |st| - k
  {
    hide Render, Push;
    if k == |st| {
      assert st[..k] == st;
    } else {
      assert IsName(st[k]);
      PushRender(st[..k], st[k]);
      assert st[..k] + [st[k]] == st[..k + 1] && st[k..][1..] == st[k + 1..];
      PrefixShorter(st, k + 1);
      WalkNames(st, k + 1, capacity);
    }
  }

  /** Resolving a canonical path gives the same path, whatever the working directory. */
  lemma ResolveAgain(cwd: string, s: string, capacity: nat)
    requires Canonical(s) && |s| < capacity
    ensures Startable(cwd, s, capacity) && Walk(Start(cwd, s), Components(s), capacity) == Fine(s)
  {
    RootIs();
    var st := Components(s);
    assert st[..0] == [] && st[0..] == st;
    WalkNames(st, 0, capacity);
  }

  /** The kernel and the copy command give the same answer, and fail for the same inputs, on every non-empty path. */
  method SameAnswer(cwd: string, path: string, capacity: nat)
      returns (r: Errno, inKernel: string, ok: bool, inCopy: string)
    ensures path != "" ==> (r == Success <==> ok) && (ok ==> inKernel == inCopy)
    ensures path == "" ==> r == InvalidArgument
  {
    r, inKernel := ResolvePath(cwd, path, capacity);
    ok, inCopy := NormalizePath(path, cwd, capacity);
  }

  const PATH_MAX: nat := 256

  /** A process's working directory. */
  class WorkingDirectory {
    var cwd: string

    ghost predicate Valid()
      reads this
    {
      Canonical(cwd) && |cwd| < PATH_MAX
    }

    /** The boot process starts at the root. */
    constructor ()
      ensures Valid() && cwd == "/"
    {
      cwd := "/";
      new;
      RootIs();
      RenderCanonical([]);
    }

    /** proc_create copies the parent's directory. */
    constructor Inherit(parent: WorkingDirectory)
      requires parent.Valid()
      ensures Valid() && cwd == parent.cwd
    {
      cwd := if parent.cwd != "" && parent.cwd[0] == '/' then parent.cwd else "/";
    }

    /** SYS_chdir; found and isDirectory are what the file system says about the resolved path. */
    method Chdir(path: string, found: Errno, isDirectory: bool) returns (r: Errno)
      requires Valid()
      modifies this
      ensures Valid()
      ensures r == if path == "" then InvalidArgument
                   else if !AllFit(StackOf(old(cwd), path), Components(path), PATH_MAX) then NameTooLong
                   else if found != Success then found
                   else if !isDirectory then NotDirectory
                   else Success
      ensures r != Success ==> cwd == old(cwd)
      ensures r == Success ==>
        cwd == Render(Fold(if path[0] == '/' then [] else Components(old(cwd)), Components(path)))
    {
      hide Canonical, Render, Fold, Components, Walk, AllFit;
      CanonicalRoot(cwd);
      var resolved;
      r, resolved := ResolvePath(cwd, path, PATH_MAX);
      if r != Success { return; }
      if found != Success { return found; }
      if !isDirectory { return NotDirectory; }
      ResolveCanonical(cwd, path, PATH_MAX);
      if |resolved| >= PATH_MAX { return NameTooLong; }
      cwd := resolved;
    }
  }

  lemma CanonicalRoot(s: string)
    requires Canonical(s)
    ensures s != "" && s[0] == '/'
  {
    hide Components;
  }

  /** One successful chdir, as the method specifies it. */
  ghost predicate Changes(cwd: string, path: string, cwd': string) {
    path != "" && |cwd'| < PATH_MAX && cwd' ==
        Render(Fold(if path[0] == '/' then [] else Components(cwd), Components(path)))
  }

  /** Over any run of chdir calls the working directory stays canonical. */
  lemma {:induction false} CwdStaysCanonical(cwds: seq<string>, paths: seq<string>, k: nat)
    requires |cwds| == |paths| + 1 && Canonical(cwds[0]) && k < |cwds|
    requires forall i :: 0 <= i < |paths| ==> Changes(cwds[i], paths[i], cwds[i + 1])
    ensures Canonical(cwds[k])
  {
    hide Render, Components;
    if k > 0 {
      CwdStaysCanonical(cwds, paths, k - 1);
      assert Changes(cwds[k - 1], paths[k - 1], cwds[k]);
      var st := if paths[k - 1][0] == '/' then [] else Components(cwds[k - 1]);
      FoldStack(st, Components(paths[k - 1]));
      RenderCanonical(Fold(st, Components(paths[k - 1])));
    }
  }
}
