/** exec_copy_to_user_space and exec_build_stack: arguments on the user stack, read back through the page tables. */
module ExecStack {
  import opened Machine
  import opened PageTable
  import opened Spaces
  import opened Paging
  import opened UserSpace
  import opened CleanSpace
  import opened Elf
  import Pmm

  const TOP: nat := 0xBFFF_E000
  const SIZE: nat := 16 * 4096
  const BASE: nat := 0xBFFE_E000
  const FIRST: nat := 0xBFFEE
  const PAGES: nat := 16

  /** The x-th byte of the stack pages. */
  ghost function ByteAt(phys: Phys, frames: seq<nat>, x: nat): byte {
    if x / PAGE < |frames| && frames[x / PAGE] < FRAMES
        && phys[frames[x / PAGE]].Data? then phys[frames[x / PAGE]].bytes[x % PAGE] else 0
  }

  /** The stack pages as one stretch of bytes. */
  ghost function Flat(phys: Phys, frames: seq<nat>): (s: seq<byte>)
    ensures |s| == |frames| * PAGE
  {
    seq(|frames| * PAGE, x requires 0 <= x => ByteAt(phys, frames, x))
  }

  /** The stack region is mapped, page by page, to frames of its own. */
  ghost predicate Stacked(phys: Phys, used: set<nat>, pd: nat, frames: seq<nat>) {
    var stacked := Space(phys, pd) && |frames| == PAGES && Region(phys, used, pd, FIRST, frames);
    stacked
  }

  /** What a program reads on its stack is what the flat view holds. */
  lemma FlatIsSeen(phys: Phys, used: set<nat>, pd: nat, frames: seq<nat>, x: nat)
    requires Stacked(phys, used, pd, frames) && x < SIZE
    ensures UserByte(phys, pd, BASE + x) == Byte(Flat(phys, frames)[x])
  {
    hide Translate, Unused;
    assert (BASE + x) / PAGE == FIRST + x / PAGE && (BASE + x) % PAGE == x % PAGE;
    assert PageIs(phys, used, pd, FIRST + x / PAGE, frames[x / PAGE]);
  }

  /** Only the given frames may differ. */
  ghost predicate OnlyFrames(phys: Phys, phys': Phys, frames: seq<nat>) {
    forall g: nat | g < FRAMES && g !in frames :: phys'[g] == phys[g]
  }

  /** Writes to stack pages keep a clean space clean, when none of them is one of the kernel's tables. */
  ghost predicate StackStep(kernel: nat, pd: nat, used: set<nat>, phys: Phys, phys': Phys, frames: seq<nat>) {
    var apart := forall k :: 0 <= k < |frames| ==> !IsKernel(phys, kernel, frames[k]);
    var step := Clean(phys, used, kernel, pd) && apart ==> Tidied(kernel, pd, phys, used, phys', used);
    step
  }

  lemma NoStackStep(kernel: nat, pd: nat, used: set<nat>, phys: Phys, frames: seq<nat>)
    ensures StackStep(kernel, pd, used, phys, phys, frames)
  {
    hide Clean, IsOwned, IsKernel, OnKernelSlot;
  }

  lemma StackThen(kernel: nat, pd: nat, used: set<nat>, a: Phys, b: Phys, c: Phys, frames: seq<nat>)
    requires StackStep(kernel, pd, used, a, b, frames) && StackStep(kernel, pd, used, b, c, frames)
    ensures StackStep(kernel, pd, used, a, c, frames)
  {
    hide Clean, IsOwned, IsKernel, OnKernelSlot;
  }

  lemma StackWrite(kernel: nat, pd: nat, used: set<nat>, phys: Phys, frames: seq<nat>, p: nat, bytes: Bytes4K)
    requires Stacked(phys, used, pd, frames) && p < |frames|
    ensures frames[p] < FRAMES && StackStep(kernel, pd, used, phys, phys[frames[p] := Data(bytes)], frames)
  {
    hide Clean, Tidied, IsKernel, Translate, Unused;
    assert PageIs(phys, used, pd, FIRST + p, frames[p]);
    if Clean(phys, used, kernel, pd) && forall k :: 0 <= k < |frames| ==> !IsKernel(phys, kernel, frames[k]) {
      WriteClean(kernel, pd, phys, used, frames[p], bytes);
    }
  }

  /** Writing inside one page is a splice of the flat view. */
  lemma WritePage(phys: Phys, used: set<nat>, pd: nat, frames: seq<nat>, p: nat, o: nat, b: seq<byte>)
    requires Stacked(phys, used, pd, frames) && p < PAGES && o + |b| <= PAGE
    ensures frames[p] < FRAMES && phys[frames[p]].Data? && p * PAGE + o + |b| <= SIZE
    ensures var phys' := phys[frames[p] := Data(Splice(phys[frames[p]].bytes, o, b))];
            && Stacked(phys', used, pd, frames) && Flat(phys', frames) == Splice(Flat(phys, frames), p * PAGE + o, b)
                && OnlyFrames(phys, phys', frames)
  {
    hide Translate, Unused, Space;
    assert PageIs(phys, used, pd, FIRST + p, frames[p]);
    var bytes: Bytes4K := Splice(phys[frames[p]].bytes, o, b);
    var phys' := phys[frames[p] := Data(bytes)];
    RegionWritten(phys, used, pd, frames, p, bytes);
    FlatWritten(phys, frames, p, o, b);
  }

  lemma RegionWritten(phys: Phys, used: set<nat>, pd: nat, frames: seq<nat>, p: nat, bytes: Bytes4K)
    requires Stacked(phys, used, pd, frames) && p < PAGES && frames[p] < FRAMES
    ensures Stacked(phys[frames[p] := Data(bytes)], used, pd, frames)
  {
    hide Space, UserClosed, Translate, Unused, Backed;
    assert PageIs(phys, used, pd, FIRST + p, frames[p]);
    DataWritten(phys, pd, frames[p], bytes);
    var phys' := phys[frames[p] := Data(bytes)];
    forall k | 0 <= k < |frames| ensures PageIs(phys', used, pd, FIRST + k, frames[k]) {
      assert PageIs(phys, used, pd, FIRST + k, frames[k]);
      UnusedData(phys, pd, frames[p], bytes, frames[k]);
    }
  }

  lemma FlatWritten(phys: Phys, frames: seq<nat>, p: nat, o: nat, b: seq<byte>)
    requires p < |frames| && frames[p] < FRAMES && phys[frames[p]].Data? && o + |b| <= PAGE
    requires forall k, l :: 0 <= k < l < |frames| ==> frames[k] != frames[l]
    ensures p * PAGE + o + |b| <= |frames| * PAGE
    ensures Flat(phys[frames[p] := Data(Splice(phys[frames[p]].bytes, o, b))], frames) ==
        Splice(Flat(phys, frames), p * PAGE + o, b)
  {
    var phys' := phys[frames[p] := Data(Splice(phys[frames[p]].bytes, o, b))];
    var was, now := Flat(phys, frames), Flat(phys', frames);
    forall x | 0 <= x < |now| ensures now[x] == Splice(was, p * PAGE + o, b)[x] {
      assert x / PAGE != p ==> frames[x / PAGE] != frames[p];
    }
  }

  /** exec_copy_to_user_space, inside the stack region. */
  method CopyToUser(mem: Memory, pd: nat, address: u32, source: seq<byte>, ghost used: set<nat>, ghost frames: seq<nat>)
      returns (ok: bool)
    requires Stacked(mem.phys, used, pd, frames) && BASE <= address && address + |source| <= TOP
    modifies mem`phys
    ensures Stacked(mem.phys, used, pd, frames) && OnlyFrames(old(mem.phys), mem.phys, frames)
    ensures StackStep(mem.kernel, pd, used, old(mem.phys), mem.phys, frames)
    ensures ok ==> Flat(mem.phys, frames) == Splice(Flat(old(mem.phys), frames), address - BASE, source)
    ensures mem.granted ==> ok
  {
    hide Stacked, Flat, OnlyFrames, Translate, StackStep;
    NoStackStep(mem.kernel, pd, used, mem.phys, frames);
    var i: nat := 0;
    ghost var s0 := Flat(mem.phys, frames);
    StackSpace(mem.phys, used, pd, frames);
    NothingWritten(mem.phys, frames, address - BASE);
    while i < |source|
      invariant 0 <= i <= |source| && Stacked(mem.phys, used, pd, frames) && OnlyFrames(old(mem.phys), mem.phys, frames)
      invariant StackStep(mem.kernel, pd, used, old(mem.phys), mem.phys, frames)
      invariant |s0| == SIZE && Flat(mem.phys, frames) == Splice(s0, address - BASE, source[..i])
    {
      var page, offset := (address + i) / PAGE, (address + i) % PAGE;
      StackSpace(mem.phys, used, pd, frames);
      var m := mem.Walk(pd, page);
      OnStack(mem.phys, used, pd, frames, address + i);
      if !m.Mapped? || !m.user { return false; }
      var amount := Min(PAGE - offset, |source| - i);
      var mapped := mem.Grant();
      if !mapped { return false; }
      WritePage(mem.phys, used, pd, frames, page - FIRST, offset, source[i..i + amount]);
      MoreWritten(s0, address - BASE, source, i, amount);
      ghost var phys := mem.phys;
      var bytes: Bytes4K := Splice(mem.phys[m.frame].bytes, offset, source[i..i + amount]);
      StackWrite(mem.kernel, pd, used, phys, frames, page - FIRST, bytes);
      mem.phys := mem.phys[m.frame := Data(bytes)];
      StackThen(mem.kernel, pd, used, old(mem.phys), phys, mem.phys, frames);
      OnlyFramesMore(old(mem.phys), phys, mem.phys, frames);
      i := i + amount;
    }
    assert source[..i] == source;
    ok := true;
  }

  lemma NothingWritten(phys: Phys, frames: seq<nat>, at: nat)
    requires at <= |frames| * PAGE
    ensures Flat(phys, frames) == Splice(Flat(phys, frames), at, []) && OnlyFrames(phys, phys, frames)
  {
    hide ByteAt;
  }

  lemma StackSpace(phys: Phys, used: set<nat>, pd: nat, frames: seq<nat>)
    requires Stacked(phys, used, pd, frames)
    ensures Space(phys, pd) && |frames| == PAGES && |Flat(phys, frames)| == SIZE
  {
  }

  /** A stack address is mapped to its page's frame. */
  lemma OnStack(phys: Phys, used: set<nat>, pd: nat, frames: seq<nat>, a: nat)
    requires Stacked(phys, used, pd, frames) && BASE <= a < TOP
    ensures FIRST <= a / PAGE < FIRST + PAGES && (a / PAGE - FIRST) * PAGE + a % PAGE == a - BASE
    ensures var m := Translate(phys, pd, a / PAGE);
          m.Mapped? && m.user && m.frame == frames[a / PAGE - FIRST] && m.frame < FRAMES && phys[m.frame].Data?
  {
    hide Translate, Unused;
    assert PageIs(phys, used, pd, FIRST + (a / PAGE - FIRST), frames[a / PAGE - FIRST]);
  }

  lemma MoreWritten(s: seq<byte>, at: nat, source: seq<byte>, i: nat, n: nat)
    requires at + |source| <= |s| && i + n <= |source|
    ensures Splice(Splice(s, at, source[..i]), at + i, source[i..i + n]) == Splice(s, at, source[..i + n])
  {
    SpliceAdjacent(s, at, source[..i], source[i..i + n]);
    assert source[..i] + source[i..i + n] == source[..i + n];
  }

  lemma OnlyFramesMore(a: Phys, b: Phys, c: Phys, frames: seq<nat>)
    requires OnlyFrames(a, b, frames) && OnlyFrames(b, c, frames)
    ensures OnlyFrames(a, c, frames)
  {
  }

  /** Room the strings take, each with its terminating zero. */
  function Total(args: seq<seq<byte>>): nat {
    if args == [] then 0 else |args[0]| + 1 + Total(args[1..])
  }

  /** The strings one after the other. */
  function Joined(args: seq<seq<byte>>): (r: seq<byte>)
    ensures |r| == Total(args)
  {
    if args == [] then [] else args[0] + [0] + Joined(args[1..])
  }

  /** Where the k-th string starts: the strings fill the stack from the top, the last one first. */
  function Address(args: seq<seq<byte>>, k: nat): int
    requires k <= |args|
  {
    TOP - Total(args[k..])
  }

  lemma AddressStep(args: seq<seq<byte>>, k: nat)
    requires k < |args|
    ensures Address(args, k) + |args[k]| + 1 == Address(args, k + 1)
    ensures Joined(args[k..]) == args[k] + [0] + Joined(args[k + 1..])
  {
    assert args[k..][1..] == args[k + 1..];
  }

  lemma {:induction false} AddressOrder(args: seq<seq<byte>>, j: nat, k: nat)
    requires j <= k <= |args|
    ensures Address(args, j) <= Address(args, k)
    decreases k - j
  {
    if j < k {
      AddressStep(args, j);
      AddressOrder(args, j + 1, k);
    }
  }

  /** The k-th string inside the joined strings from i on. */
  lemma {:induction false} JoinedHolds(args: seq<seq<byte>>, i: nat, k: nat)
    requires i <= k < |args|
    ensures var o := Address(args, k) - Address(args, i);
          0 <= o && o + |args[k]| + 1 <= Total(args[i..]) && Joined(args[i..])[o..o + |args[k]| + 1] == args[k] + [0]
    decreases k - i
  {
    hide Joined;
    AddressStep(args, i);
    AddressOrder(args, i, k);
    AddressOrder(args, k + 1, |args|);
    AddressStep(args, k);
    if i < k {
      JoinedHolds(args, i + 1, k);
      Behind(args[i] + [0], Joined(args[i + 1..]), Address(args, k) - Address(args, i + 1), |args[k]| + 1);
    }
  }

  lemma Behind(a: seq<byte>, b: seq<byte>, o: nat, m: nat)
    requires o + m <= |b|
    ensures (a + b)[|a| + o..|a| + o + m] == b[o..o + m]
  {
  }

  /** The pointer vector's bytes. */
  function Vector(words: seq<u32>): (r: seq<byte>)
    ensures |r| == 4 * |words|
  {
    if words == [] then [] else Vector(words[..|words| - 1]) + Bytes32(words[|words| - 1])
  }

  lemma {:induction false} VectorAt(words: seq<u32>, k: nat)
    requires k < |words|
    ensures Vector(words)[4 * k..4 * k + 4] == Bytes32(words[k])
  {
    var n := |words| - 1;
    if k < n {
      VectorAt(words[..n], k);
      assert Vector(words)[4 * k..4 * k + 4] == Vector(words[..n])[4 * k..4 * k + 4];
    }
  }

  /** A zero-terminated string, read through the page tables. */
  ghost predicate StringAt(phys: Phys, pd: nat, a: int, s: seq<byte>) {
    0 <= a && (forall j ::
          0 <= j < |s| ==> UserByte(phys, pd, a + j) == Byte(s[j])) && UserByte(phys, pd, a + |s|) == Byte(0)
  }

  /** A little-endian word, read through the page tables. */
  ghost predicate WordAt(phys: Phys, pd: nat, a: nat, w: u32) {
    forall j :: 0 <= j < 4 ==> UserByte(phys, pd, a + j) == Byte(Bytes32(w)[j])
  }

  /** The pointers the vector holds. */
  ghost function Pointers(args: seq<seq<byte>>): (r: seq<u32>)
    ensures |r| == |args|
  {
    seq(|args|, k requires 0 <= k < |args| => Wrap32(Address(args, k)))
  }

  lemma WrapSmall(x: int)
    requires 0 <= x < U32
    ensures Wrap32(x) == x
  {
  }

  lemma PointerIs(args: seq<seq<byte>>, k: nat)
    requires k < |args| && Total(args) <= SIZE
    ensures Pointers(args)[k] == Address(args, k)
  {
    hide Address, Total, Wrap32;
    AddressRange(args, k);
    WrapSmall(Address(args, k));
  }

  lemma AddressRange(args: seq<seq<byte>>, k: nat)
    requires k <= |args| && Total(args) <= SIZE
    ensures BASE <= Address(args, k) <= TOP
  {
    AddressOrder(args, 0, k);
    AddressOrder(args, k, |args|);
    assert args[0..] == args;
  }

  /**
   The finished stack: every argument string behind its pointer, the vector closed by a null pointer,
   everything in order and inside the stack region.
   */
  ghost predicate Built(phys: Phys, pd: nat, args: seq<seq<byte>>, argv: nat, stack: nat) {
    && Total(args) <= SIZE && |args| <= 32
    && (forall k: nat | k < |args| ::
          StringAt(phys, pd, Address(args, k), args[k]) && WordAt(phys, pd, argv + 4 * k, Pointers(args)[k]))
    && WordAt(phys, pd, argv + 4 * |args|, 0)
    && argv % 4 == 0 && stack % 16 == 0 && BASE <= stack <= argv < stack + 16
        && argv + 4 * (|args| + 1) <= Address(args, 0)
  }

  /** Bytes of the flat view, seen by the program. */
  lemma SeenBytes(phys: Phys, used: set<nat>, pd: nat, frames: seq<nat>, a: nat, b: seq<byte>)
    requires Stacked(phys, used, pd, frames) && BASE <= a && a + |b| <= TOP && |frames| == PAGES
        && Flat(phys, frames)[a - BASE..a - BASE + |b|] == b
    ensures forall j :: 0 <= j < |b| ==> UserByte(phys, pd, a + j) == Byte(b[j])
  {
    hide Stacked, Flat, UserByte;
    StackSpace(phys, used, pd, frames);
    forall j | 0 <= j < |b| ensures UserByte(phys, pd, a + j) == Byte(b[j]) {
      FlatIsSeen(phys, used, pd, frames, a - BASE + j);
      assert Flat(phys, frames)[a - BASE..a - BASE + |b|][j] == Flat(phys, frames)[a - BASE + j];
    }
  }

  /** The flat view of a finished stack. */
  ghost predicate FlatBuilt(flat: seq<byte>, args: seq<seq<byte>>, argv: nat) {
    && |flat| == SIZE && Total(args) <= SIZE && BASE <= argv && argv + 4 * (|args| + 1) <= Address(args, 0)
    && flat[Address(args, 0) - BASE..] == Joined(args)
    && flat[argv - BASE..argv - BASE + 4 * (|args| + 1)] == Vector(Pointers(args) + [0])
  }

  lemma SubSlice(b: seq<byte>, a: nat, n: nat, o: nat, m: nat)
    requires a + n <= |b| && o + m <= n
    ensures b[a..a + n][o..o + m] == b[a + o..a + o + m]
  {
    var x, y := b[a..a + n][o..o + m], b[a + o..a + o + m];
    assert forall k :: 0 <= k < m ==> x[k] == y[k];
  }

  lemma StringBuilt(phys: Phys, used: set<nat>, pd: nat, frames: seq<nat>, args: seq<seq<byte>>, argv: nat, k: nat)
    requires Stacked(phys, used, pd, frames) && FlatBuilt(Flat(phys, frames), args, argv) && k < |args|
    ensures StringAt(phys, pd, Address(args, k), args[k])
  {
    hide Stacked, Flat, UserByte, Vector, Address, Joined, Pointers, StringAt;
    AddressRange(args, k);
    AddressRange(args, k + 1);
    AddressRange(args, 0);
    AddressStep(args, k);
    AddressOrder(args, 0, k);
    assert args[0..] == args;
    JoinedHolds(args, 0, k);
    TopIs(args);
    var flat, a, b := Flat(phys, frames), Address(args, k), args[k] + [0];
    var top := Address(args, 0) - BASE;
    SubSlice(flat, top, SIZE - top, a - BASE - top, |b|);
    assert flat[top..] == flat[top..top + (SIZE - top)];
    SeenBytes(phys, used, pd, frames, a, b);
    SeenString(phys, pd, a, args[k]);
  }

  lemma SeenString(phys: Phys, pd: nat, a: nat, s: seq<byte>)
    requires var b := s + [0]; forall j :: 0 <= j < |b| ==> UserByte(phys, pd, a + j) == Byte(b[j])
    ensures StringAt(phys, pd, a, s)
  {
    hide UserByte;
    var b := s + [0];
    assert b[|s|] == 0;
    forall j | 0 <= j < |s| ensures UserByte(phys, pd, a + j) == Byte(s[j]) { assert b[j] == s[j]; }
  }

  lemma TopIs(args: seq<seq<byte>>)
    requires Total(args) <= SIZE
    ensures Address(args, 0) == TOP - Total(args)
  {
    assert args[0..] == args;
  }

  lemma WordBuilt(phys: Phys, used: set<nat>, pd: nat, frames: seq<nat>, args: seq<seq<byte>>, argv: nat, k: nat)
    requires Stacked(phys, used, pd, frames) && FlatBuilt(Flat(phys, frames), args, argv) && k <= |args|
    ensures WordAt(phys, pd, argv + 4 * k, (Pointers(args) + [0])[k])
  {
    hide Stacked, Flat, UserByte, Vector, Address, Joined, Pointers, Bytes32;
    AddressRange(args, 0);
    var words, flat := Pointers(args) + [0], Flat(phys, frames);
    VectorAt(words, k);
    SubSlice(flat, argv - BASE, 4 * (|args| + 1), 4 * k, 4);
    SeenBytes(phys, used, pd, frames, argv + 4 * k, Bytes32(words[k]));
  }

  lemma FlatIsBuilt(phys: Phys, used: set<nat>, pd: nat, frames: seq<nat>, args: seq<seq<byte>>, argv: nat, stack: nat)
    requires Stacked(phys, used, pd, frames) && FlatBuilt(Flat(phys, frames), args, argv) && |args| <= 32
    requires argv % 4 == 0 && stack == argv - argv % 16
    ensures Built(phys, pd, args, argv, stack)
  {
    hide Stacked, Flat, UserByte, Vector, Address, Joined, StringAt, WordAt, Pointers;
    forall k: nat | k < |args| ensures StringAt(phys, pd, Address(args, k), args[k])
        && WordAt(phys, pd, argv + 4 * k, Pointers(args)[k]) {
      StringBuilt(phys, used, pd, frames, args, argv, k);
      WordBuilt(phys, used, pd, frames, args, argv, k);
    }
    WordBuilt(phys, used, pd, frames, args, argv, |args|);
    RoundDown16(argv);
  }

  lemma RoundDown16(argv: nat)
    requires BASE <= argv
    ensures var stack := argv - argv % 16; BASE <= stack <= argv < stack + 16 && stack % 16 == 0
  {
  }

  /** The string loop, all strings from i on being in place. */
  ghost predicate Pushed(flat0: seq<byte>, flat: seq<byte>, args: seq<seq<byte>>, i: nat, stack: nat,
      pointers: seq<u32>) {
    var pushed := i <= |args| && |flat| == |flat0| == SIZE && BASE <= stack == Address(args, i) && stack <= TOP
      && flat[stack - BASE..] == Joined(args[i..]) && flat[..stack - BASE] == flat0[..stack - BASE]
      && |pointers| == |args| && forall k :: i <= k < |args| ==> pointers[k] == Address(args, k);
    pushed
  }

  lemma PushStart(flat: seq<byte>, args: seq<seq<byte>>)
    requires |flat| == SIZE
    ensures Pushed(flat, flat, args, |args|, TOP, seq(|args|, _ => 0))
  {
  }

  /** One more string in front. */
  lemma PushStep(flat0: seq<byte>, flat: seq<byte>, args: seq<seq<byte>>, i: nat, stack: nat, pointers: seq<u32>)
    requires Pushed(flat0, flat, args, i, stack, pointers) && 0 < i && |args[i - 1]| + 1 <= stack - BASE
    ensures i <= |args| && |pointers| == |args|
    ensures var s := args[i - 1] + [0];
            && stack - |s| - BASE + |s| <= |flat|
            && Pushed(flat0, Splice(flat, stack - |s| - BASE, s), args, i - 1, stack - |s|,
                pointers[i - 1 := stack - |s|])
  {
    hide Joined, Total;
    AddressStep(args, i - 1);
    var s := args[i - 1] + [0];
    var flat' := Splice(flat, stack - |s| - BASE, s);
    var at := stack - |s| - BASE;
    SpliceBefore(flat, at, s);
    assert flat'[..at] == flat0[..at] by {
      assert flat'[..at] == flat[..at];
      assert flat[..stack - BASE][..at] == flat[..at] && flat0[..stack - BASE][..at] == flat0[..at];
    }
  }

  lemma SpliceBefore(b: seq<byte>, at: nat, p: seq<byte>)
    requires at + |p| <= |b|
    ensures Splice(b, at, p)[at..] == p + b[at + |p|..]
  {
  }

  /** After the vector is written. */
  lemma VectorWritten(flat0: seq<byte>, flat: seq<byte>, args: seq<seq<byte>>, stack: nat, pointers: seq<u32>,
      argv: nat)
    requires Pushed(flat0, flat, args, 0, stack, pointers) && BASE <= argv && argv + 4 * (|args| + 1) <= stack
    ensures |pointers| == |args| && argv - BASE + 4 * (|args| + 1) <= |flat|
    ensures FlatBuilt(Splice(flat, argv - BASE, Vector(pointers + [0])), args, argv)
  {
    hide Joined, Total, Vector;
    assert args[0..] == args;
    TotalFits(args, stack);
    forall k | 0 <= k < |args| ensures pointers[k] == Pointers(args)[k] { PointerIs(args, k); }
    assert pointers == Pointers(args);
    var v, at, top := Vector(pointers + [0]), argv - BASE, stack - BASE;
    var flat' := Splice(flat, at, v);
    assert flat'[top..] == flat[top..];
    assert flat'[at..at + |v|] == v;
  }

  lemma TotalFits(args: seq<seq<byte>>, stack: nat)
    requires stack == Address(args, 0) && BASE <= stack
    ensures Total(args) <= SIZE
  {
    assert args[0..] == args;
  }

  /** Everything exec_build_stack accepts: at most 32 strings, each within four pages, all of it inside the region. */
  ghost predicate Accepted(args: seq<seq<byte>>) {
    && |args| <= 32 && (forall k :: 0 <= k < |args| ==> |args[k]| + 1 <= 4 * PAGE)
    && Total(args) <= SIZE && 4 * (|args| + 1) <= (Address(args, 0) - Address(args, 0) % 4) - BASE
  }

  /** The strings, last one first. */
  method PushStrings(mem: Memory, pd: nat, args: seq<seq<byte>>, ghost used: set<nat>, ghost frames: seq<nat>)
    returns (ok: bool, stack: u32, pointers: seq<u32>)
    requires Stacked(mem.phys, used, pd, frames) && |args| <= 32
    modifies mem`phys
    ensures Stacked(mem.phys, used, pd, frames) && OnlyFrames(old(mem.phys), mem.phys, frames)
    ensures StackStep(mem.kernel, pd, used, old(mem.phys), mem.phys, frames)
    ensures ok ==> Pushed(Flat(old(mem.phys), frames), Flat(mem.phys, frames), args, 0, stack, pointers)
    ensures ok ==> forall k :: 0 <= k < |args| ==> |args[k]| + 1 <= 4 * PAGE
    ensures !ok && mem.granted ==> !Accepted(args)
  {
    hide Stacked, Flat, OnlyFrames, Pushed, StackStep, Accepted, Address;
    ghost var flat0 := Flat(mem.phys, frames);
    NoStackStep(mem.kernel, pd, used, mem.phys, frames);
    StackSpace(mem.phys, used, pd, frames);
    NothingWritten(mem.phys, frames, 0);
    PushStart(flat0, args);
    stack, pointers := TOP, seq(|args|, _ => 0);
    var i: nat := |args|;
    while i > 0
      invariant i <= |args| && Stacked(mem.phys, used, pd, frames) && OnlyFrames(old(mem.phys), mem.phys, frames)
      invariant StackStep(mem.kernel, pd, used, old(mem.phys), mem.phys, frames)
      invariant Pushed(flat0, Flat(mem.phys, frames), args, i, stack, pointers)
      invariant forall k :: i <= k < |args| ==> |args[k]| + 1 <= 4 * PAGE
    {
      var s := args[i - 1] + [0];
      PushedMeans(flat0, Flat(mem.phys, frames), args, i, stack, pointers);
      if |s| > 4 * PAGE || |s| > stack - BASE {
        NotAccepted(args, i);
        return false, stack, pointers;
      }
      PushStep(flat0, Flat(mem.phys, frames), args, i, stack, pointers);
      stack := stack - |s|;
      ghost var phys := mem.phys;
      ok := CopyToUser(mem, pd, stack, s, used, frames);
      StackThen(mem.kernel, pd, used, old(mem.phys), phys, mem.phys, frames);
      OnlyFramesMore(old(mem.phys), phys, mem.phys, frames);
      if !ok { return; }
      pointers := pointers[i - 1 := stack];
      i := i - 1;
    }
    ok := true;
  }

  /** A string too long, or one that no longer fits below those behind it. */
  lemma NotAccepted(args: seq<seq<byte>>, i: nat)
    requires 0 < i <= |args| && (|args[i - 1]| + 1 > 4 * PAGE || |args[i - 1]| + 1 > Address(args, i) - BASE)
    ensures !Accepted(args)
  {
    hide Total;
    AddressStep(args, i - 1);
    AddressOrder(args, 0, i - 1);
    assert args[0..] == args;
  }

  lemma PushedMeans(flat0: seq<byte>, flat: seq<byte>, args: seq<seq<byte>>, i: nat, stack: nat, pointers: seq<u32>)
    requires Pushed(flat0, flat, args, i, stack, pointers)
    ensures BASE <= stack <= TOP && stack == Address(args, i) && |pointers| == |args|
  {
  }

  lemma AcceptedIs(args: seq<seq<byte>>, top: nat)
    requires |args| <= 32 && (forall k :: 0 <= k < |args| ==> |args[k]| + 1 <= 4 * PAGE) && Total(args) <= SIZE
    requires top == Address(args, 0)
    ensures Accepted(args) <==> 4 * (|args| + 1) <= top - top % 4 - BASE
  {
  }

  lemma TooMany(args: seq<seq<byte>>)
    requires |args| > 32
    ensures !Accepted(args)
  {
  }

  /** exec_build_stack: what it accepts can be read back, string by string and pointer by pointer; it accepts exactly
      what Accepted says if nothing it asks for is refused. */
  method BuildStack(mem: Memory, pd: nat, args: seq<seq<byte>>, ghost used: set<nat>, ghost frames: seq<nat>)
    returns (ok: bool, stackOut: u32, argvOut: u32)
    requires Stacked(mem.phys, used, pd, frames)
    modifies mem`phys
    ensures Stacked(mem.phys, used, pd, frames) && OnlyFrames(old(mem.phys), mem.phys, frames)
    ensures StackStep(mem.kernel, pd, used, old(mem.phys), mem.phys, frames)
    ensures ok ==> Accepted(args) && Built(mem.phys, pd, args, argvOut, stackOut)
    ensures !ok && mem.granted ==> !Accepted(args)
    ensures ok ==>
          FlatBuilt(Flat(mem.phys, frames), args, argvOut) && argvOut % 4 == 0 && stackOut == argvOut - argvOut % 16
  {
    hide Stacked, Flat, OnlyFrames, Pushed, Built, FlatBuilt, Vector, StackStep, Total, Address, Accepted;
    NoStackStep(mem.kernel, pd, used, mem.phys, frames);
    ok, stackOut, argvOut := false, 0, 0;
    NothingWritten(mem.phys, frames, 0);
    if |args| > 32 {
      TooMany(args);
      return;
    }
    ghost var flat0 := Flat(mem.phys, frames);
    var stack, pointers;
    ok, stack, pointers := PushStrings(mem, pd, args, used, frames);
    if !ok { return; }
    PushedMeans(flat0, Flat(mem.phys, frames), args, 0, stack, pointers);
    TotalFits(args, stack);
    AcceptedIs(args, stack);
    ghost var top := stack;
    stack := stack - stack % 4;
    var size := (|args| + 1) * 4;
    if size > stack - BASE { return false, 0, 0; }
    stack := stack - size;
    VectorWritten(flat0, Flat(mem.phys, frames), args, top, pointers, stack);
    ghost var phys := mem.phys;
    ok := CopyToUser(mem, pd, stack, Vector(pointers + [0]), used, frames);
    StackThen(mem.kernel, pd, used, old(mem.phys), phys, mem.phys, frames);
    OnlyFramesMore(old(mem.phys), phys, mem.phys, frames);
    if !ok { return; }
    stackOut, argvOut := stack - stack % 16, stack;
    FlatIsBuilt(mem.phys, used, pd, frames, args, argvOut, stackOut);
  }
}
