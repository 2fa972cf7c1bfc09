/** exec_elf_vnode_args and exec_elf_image: a new space, the image, the stack and the trampoline, or nothing at all. */
module Exec {
  import opened Machine
  import opened PageTable
  import opened Spaces
  import opened Paging
  import opened Budgets
  import opened UserSpace
  import opened CleanSpace
  import opened Elf
  import opened ElfImage
  import opened ExecStack

  /** The trampoline's page, four pages below the stack. */
  const TRAMPOLINE: nat := 0xBFFEA

  /** push argv; push argc; mov eax, entry; call eax; mov ebx, eax; mov eax, SYS_exit; int 0x80. */
  function Code(argv: u32, argc: u32, entry: u32): (r: seq<byte>)
    ensures |r| == 26
  {
    [0x68] + Bytes32(argv) + [0x68] + Bytes32(argc) + [0xB8] + Bytes32(entry) +
        [0xFF, 0xD0, 0x89, 0xC3, 0xB8, 1, 0, 0, 0, 0xCD, 0x80]
  }

  /** No page exec will map lies where the kernel has pages of its own: a test on the kernel's directory. */
  ghost predicate Roomy(phys: Phys, kernel: nat, pd: nat, b: seq<byte>) {
    && ImageFree(phys, kernel, pd, b) && SlotsFree(phys, kernel, pd, FIRST, PAGES)
        && SlotsFree(phys, kernel, pd, TRAMPOLINE, 1)
  }

  /** A segment apart from the stack and the trampoline. */
  predicate Aside(ph: Phdr) {
    && (FirstPage(ph) + SpanOf(ph) <= FIRST || FIRST + PAGES <= FirstPage(ph))
    && (FirstPage(ph) + SpanOf(ph) <= TRAMPOLINE || TRAMPOLINE + 1 <= FirstPage(ph))
  }

  /** The image as the program finds it. */
  ghost predicate ImageIn(phys: Phys, used: set<nat>, pd: nat, src: Source) {
    var b := src.bytes;
    && HasHeaders(b)
    && forall k: nat | k < PhNum(b) && PhdrAt(b, k).ptype == PT_LOAD && Exact(src, PhdrAt(b, k))
        && Untouched(b, k, PhNum(b)) && Aside(PhdrAt(b, k)) ::
         Loaded(phys, used, pd, b, PhdrAt(b, k))
  }

  /** Everything destroy could free of a usable space is in use, and none of it is frame 0. */
  lemma OwnedUsed(phys: Phys, used: set<nat>, kernel: nat, pd: nat, f: nat)
    requires Usable(phys, used, pd) && IsOwned(phys, kernel, pd, f)
    ensures f in used && f != 0
  {
    if f != pd {
      if i: nat :| Private(phys, kernel, pd, i) && f == TableFrame(phys, pd, i) {
      } else {
        var i: nat, j: nat :| UserPage(phys, kernel, pd, i, j) && f == PageFrame(phys, pd, i, j);
        var q := i * ENTRIES + j;
        assert q / ENTRIES == i && q % ENTRIES == j;
        assert Translate(phys, pd, q).Mapped? && Translate(phys, pd, q).user;
      }
    }
  }

  /** A new space owns its directory only. */
  lemma CreatedOwns(phys: Phys, kernel: nat, phys': Phys, pd: nat, f: nat)
    requires Space(phys, kernel) && CopyOf(phys, kernel, phys', pd) && pd != kernel && IsOwned(phys', kernel, pd, f)
    ensures f == pd
  {
    forall i: nat | i < ENTRIES ensures !Private(phys', kernel, pd, i) {}
  }

  /** A new space's slots are the kernel's. */
  lemma CreatedSlots(phys: Phys, kernel: nat, phys': Phys, pd: nat, page: nat)
    requires Space(phys, kernel) && CopyOf(phys, kernel, phys', pd) && pd != kernel && page < FRAMES
    ensures OnKernelSlot(phys', kernel, pd, page) ==> OnKernelSlot(phys, kernel, kernel, page)
  {
  }

  lemma CreatedRoomy(phys: Phys, kernel: nat, phys': Phys, pd: nat, b: seq<byte>)
    requires Space(phys, kernel) && CopyOf(phys, kernel, phys', pd) && pd != kernel && Roomy(phys, kernel, kernel, b)
    ensures Roomy(phys', kernel, pd, b)
  {
    hide CopyOf, Space, OnKernelSlot, PhdrAt, SpanOf;
    CreatedFree(phys, kernel, phys', pd, FIRST, PAGES);
    CreatedFree(phys, kernel, phys', pd, TRAMPOLINE, 1);
    if HasHeaders(b) {
      forall k: nat | k < PhNum(b) && PhdrAt(b, k).ptype == PT_LOAD
        ensures SlotsFree(phys', kernel, pd, FirstPage(PhdrAt(b, k)), SpanOf(PhdrAt(b, k)))
      {
        SpanOfFits(PhdrAt(b, k));
        CreatedFree(phys, kernel, phys', pd, FirstPage(PhdrAt(b, k)), SpanOf(PhdrAt(b, k)));
      }
    }
  }

  lemma CreatedFree(phys: Phys, kernel: nat, phys': Phys, pd: nat, first: nat, n: nat)
    requires Space(phys, kernel) && CopyOf(phys, kernel, phys', pd) && pd != kernel && first + n <= FRAMES
        && SlotsFree(phys, kernel, kernel, first, n)
    ensures SlotsFree(phys', kernel, pd, first, n)
  {
    hide CopyOf, Space, OnKernelSlot;
    forall q: nat | first <= q < first + n
        ensures !OnKernelSlot(phys', kernel, pd, q) { CreatedSlots(phys, kernel, phys', pd, q); }
  }

  /** From creation on, as far as the pages so far allow. */
  ghost predicate Sound(kernel: nat, pd: nat, phys0: Phys, used0: set<nat>, phys: Phys, used: set<nat>, src: Source) {
    var sound := Usable(phys, used, pd) && used0 <= used && pd in used0
      && (TableExact(src) && Clean(phys0, used0, kernel, pd) && Roomy(phys0, kernel, pd, src.bytes) ==>
            Tidied(kernel, pd, phys0, used0, phys, used));
    sound
  }

  lemma SoundImage(kernel: nat, pd: nat, phys0: Phys, used0: set<nat>, phys: Phys, used: set<nat>, src: Source)
    requires pd in used0 && Usable(phys, used, pd) && used0 <= used
        && (TableExact(src) ==> ImageStep(kernel, pd, phys0, used0, phys, used, src.bytes))
    ensures Sound(kernel, pd, phys0, used0, phys, used, src)
  {
    hide Usable, Clean, Tidied, ImageFree, SlotsFree, TableExact;
  }

  lemma SoundPages(kernel: nat, pd: nat, phys0: Phys, used0: set<nat>, phys: Phys, used: set<nat>, phys': Phys,
      used': set<nat>, src: Source, first: nat, n: nat)
    requires Sound(kernel, pd, phys0, used0, phys, used, src) && Usable(phys', used', pd) && used <= used'
    requires CleanStep(kernel, pd, phys, used, phys', used', first, n)
        && (first, n) in {(FIRST, PAGES), (TRAMPOLINE, 1 as nat)}
    ensures Sound(kernel, pd, phys0, used0, phys', used', src)
  {
    hide Usable, Clean, IsOwned, IsKernel, OnKernelSlot, ImageFree, TableExact;
    if TableExact(src) && Clean(phys0, used0, kernel, pd) && Roomy(phys0, kernel, pd, src.bytes) {
      assert SlotsFree(phys, kernel, pd, first, n);
      TidiedThen(kernel, pd, phys0, used0, phys, used, phys', used');
    }
  }

  /** A stretch of writes that keeps the space tidy where it was. */
  lemma SoundWritesIf(kernel: nat, pd: nat, phys0: Phys, used0: set<nat>, phys: Phys, used: set<nat>, phys': Phys,
      src: Source)
    requires Sound(kernel, pd, phys0, used0, phys, used, src) && Usable(phys', used, pd)
    requires TableExact(src) && Clean(phys0, used0, kernel, pd) && Roomy(phys0, kernel, pd, src.bytes) ==>
          Tidied(kernel, pd, phys, used, phys', used)
    ensures Sound(kernel, pd, phys0, used0, phys', used, src)
  {
    hide Usable, Clean, Tidied, Roomy, TableExact;
    if TableExact(src) && Clean(phys0, used0, kernel, pd) && Roomy(phys0, kernel, pd, src.bytes) {
      TidiedThen(kernel, pd, phys0, used0, phys, used, phys', used);
    }
  }

  /** What destroy would free was not in use before exec. */
  lemma SoundOwns(kernel: nat, pd: nat, old0: set<nat>, phys0: Phys, used0: set<nat>, phys: Phys, used: set<nat>,
      src: Source, f: nat)
    requires Sound(kernel, pd, phys0, used0, phys, used, src) && TableExact(src) && Clean(phys0, used0, kernel, pd)
        && Roomy(phys0, kernel, pd, src.bytes)
    requires old0 <= used0 && pd !in old0 && IsOwned(phys, kernel, pd, f)
        && (forall g :: IsOwned(phys0, kernel, pd, g) ==> g == pd)
    ensures f !in old0
  {
    hide Usable, Clean, IsOwned, IsKernel, OnKernelSlot, Roomy, TableExact;
  }

  /** The stack and the trampoline's page are in place, in frames that were free before. */
  ghost predicate Laid(phys: Phys, used: set<nat>, pd: nat, frames: seq<nat>, f: FrameNo, before: set<nat>) {
    var laid := Usable(phys, used, pd) && Stacked(phys, used, pd, frames) && AllNew(frames, before) && f !in before
        && f as nat !in frames
      && 0 in before && before <= used && PageIs(phys, used, pd, TRAMPOLINE, f);
    laid
  }

  /** The state since the image was loaded: other pages and other frames are as they were. */
  ghost predicate Beyond(phys: Phys, used: set<nat>, pd: nat, phys': Phys) {
    var beyond := DataKept(phys, used, phys')
      && forall q: nat | q < FRAMES && q != TRAMPOLINE
          && !(FIRST <= q < FIRST + PAGES) :: Translate(phys', pd, q) == Translate(phys, pd, q);
    beyond
  }

  lemma BeyondStack(phys: Phys, used: set<nat>, pd: nat, phys': Phys, used': set<nat>)
    requires SegStep(phys, used, pd, phys', used', FIRST, PAGES)
    ensures Beyond(phys, used, pd, phys')
  {
    hide Usable, Translate;
  }

  /** The trampoline's page is added. */
  lemma LaidDown(phys2: Phys, used2: set<nat>, pd: nat, phys: Phys, used: set<nat>, frames: seq<nat>, f: FrameNo,
      pt: FrameNo)
    requires Beyond(phys2, used2, pd, phys) && used2 <= used && 0 in used2 && Usable(phys, used, pd)
        && FreshFrames(phys, used, pd, TRAMPOLINE, f, pt)
    requires |frames| == PAGES && Region(phys, used, pd, FIRST, frames) && AllNew(frames, used2)
    ensures Space(phys, pd) && PtOk(phys, pd, TRAMPOLINE, pt)
    ensures var phys', used' := AddPage(phys, pd, TRAMPOLINE, f, pt), Used1(phys, used, pd, TRAMPOLINE, f, pt);
            Laid(phys', used', pd, frames, f, used2) && Beyond(phys2, used2, pd, phys')
  {
    hide Space, UserClosed, Translate, AddPage, Unused, Usable;
    AddPageStep(phys, used, pd, TRAMPOLINE, f, pt);
    AddPageKeeps(phys, used, pd, TRAMPOLINE, f, pt);
    StillUnused(phys, used, pd, TRAMPOLINE, f, pt, f);
    var phys', used' := AddPage(phys, pd, TRAMPOLINE, f, pt), Used1(phys, used, pd, TRAMPOLINE, f, pt);
    UsableSpace(phys', used', pd);
    forall k | 0 <= k < |frames| ensures PageIs(phys', used', pd, FIRST + k, frames[k]) && frames[k] != f {
      assert PageIs(phys, used, pd, FIRST + k, frames[k]);
      StillUnused(phys, used, pd, TRAMPOLINE, f, pt, frames[k]);
    }
  }

  lemma UsableSpace(phys: Phys, used: set<nat>, pd: nat)
    requires Usable(phys, used, pd)
    ensures Space(phys, pd)
  {
  }

  /** Bytes written into the stack's pages. */
  lemma LaidWrites(phys2: Phys, pd: nat, phys: Phys, used: set<nat>, frames: seq<nat>, f: FrameNo, before: set<nat>,
      phys': Phys)
    requires Laid(phys, used, pd, frames, f, before) && Beyond(phys2, before, pd, phys)
        && OnlyFrames(phys, phys', frames) && Stacked(phys', used, pd, frames)
    ensures Laid(phys', used, pd, frames, f, before) && Beyond(phys2, before, pd, phys')
  {
    hide Translate, Space, UserClosed, Usable;
    forall k | 0 <= k < |frames| ensures Unused(phys, pd, frames[k])
        && frames[k] !in before { assert PageIs(phys, used, pd, FIRST + k, frames[k]); }
    UsableSpace(phys, used, pd);
    WritesKeep(phys, used, pd, phys', frames);
    assert forall g: nat | g < FRAMES && g in before :: g !in frames && phys'[g] == phys[g];
  }

  /** Writes to frames that are no structures change no mapping. */
  lemma WritesKeep(phys: Phys, used: set<nat>, pd: nat, phys': Phys, frames: seq<nat>)
    requires Usable(phys, used, pd) && OnlyFrames(phys, phys', frames) && Space(phys', pd) && 0 !in frames
    requires forall k :: 0 <= k < |frames| ==> Unused(phys, pd, frames[k])
    ensures Usable(phys', used, pd) && (forall q: nat | q < FRAMES :: Translate(phys', pd, q) == Translate(phys, pd, q))
    ensures forall g :: Unused(phys, pd, g) ==> Unused(phys', pd, g)
  {
    forall i: nat ensures At(phys', pd, i) == At(phys, pd, i) {}
    forall i: nat, j: nat | i < ENTRIES && At(phys, pd, i).Present()
        ensures At(phys', At(phys, pd, i).frame, j) == At(phys, At(phys, pd, i).frame, j) {}
    forall i: nat, j: nat | i < ENTRIES && j < ENTRIES
        ensures UserOnly(At(phys', pd, i), At(phys', At(phys', pd, i).frame, j)) {
      assert UserOnly(At(phys, pd, i), At(phys, At(phys, pd, i).frame, j));
    }
    forall q: nat | q < FRAMES ensures Translate(phys', pd, q) == Translate(phys, pd, q) {}
  }

  /** The trampoline's code is written. */
  lemma LaidCode(phys2: Phys, pd: nat, phys: Phys, used: set<nat>, frames: seq<nat>, f: FrameNo, before: set<nat>,
      bytes: Bytes4K)
    requires Laid(phys, used, pd, frames, f, before) && Beyond(phys2, before, pd, phys)
    ensures var phys' := phys[f := Data(bytes)];
            Laid(phys', used, pd, frames, f, before) && Beyond(phys2, before, pd, phys')
                && Flat(phys', frames) == Flat(phys, frames)
  {
    hide Translate, Space, UserClosed, Low, Unused;
    var phys' := phys[f := Data(bytes)];
    DataWritten(phys, pd, f, bytes);
    WriteLow(phys, used, pd, f, bytes);
    UnusedData(phys, pd, f, bytes, f);
    forall k | 0 <= k < |frames| ensures PageIs(phys', used, pd, FIRST + k, frames[k]) {
      assert PageIs(phys, used, pd, FIRST + k, frames[k]);
      UnusedData(phys, pd, f, bytes, frames[k]);
    }
    forall x: nat | x < |frames| * PAGE
        ensures ByteAt(phys', frames, x) == ByteAt(phys, frames, x) { assert frames[x / PAGE] != f; }
  }

  /** The trampoline as the program finds it. */
  ghost predicate CodeIn(phys: Phys, pd: nat, code: seq<byte>) {
    forall j :: 0 <= j < |code| ==> UserByte(phys, pd, TRAMPOLINE * PAGE + j) == Byte(code[j])
  }

  lemma CodeSeen(phys: Phys, used: set<nat>, pd: nat, f: FrameNo, code: seq<byte>)
    requires PageIs(phys, used, pd, TRAMPOLINE, f) && |code| <= PAGE && phys[f].bytes[..|code|] == code
    ensures CodeIn(phys, pd, code)
  {
    hide Translate, Unused;
    forall j | 0 <= j < |code| ensures UserByte(phys, pd, TRAMPOLINE * PAGE + j) == Byte(code[j]) {
      assert phys[f].bytes[..|code|][j] == phys[f].bytes[j];
    }
  }

  /** The image stays as loaded. */
  lemma ImageBeyond(phys2: Phys, used2: set<nat>, pd: nat, src: Source, phys: Phys, used: set<nat>)
    requires HasHeaders(src.bytes) && LoadedUpTo(phys2, used2, pd, src, PhNum(src.bytes))
        && Beyond(phys2, used2, pd, phys) && used2 <= used
    ensures ImageIn(phys, used, pd, src)
  {
    hide Translate, Loaded, PhdrAt, SpanOf, EndFits, ReadExact, Untouched;
    var b := src.bytes;
    forall k: nat | k < PhNum(b) && PhdrAt(b, k).ptype == PT_LOAD && Exact(src, PhdrAt(b, k))
        && Untouched(b, k, PhNum(b)) && Aside(PhdrAt(b, k))
      ensures Loaded(phys, used, pd, b, PhdrAt(b, k))
    {
      SpanOfFits(PhdrAt(b, k));
      LoadedKept(phys2, used2, pd, b, PhdrAt(b, k), phys, used);
    }
  }

  /** Stack writes and the trampoline's code keep the space sound: their frames were free at creation. */
  lemma SoundStack(kernel: nat, pd: nat, phys0: Phys, used0: set<nat>, phys: Phys, used: set<nat>, frames: seq<nat>,
      f: FrameNo, before: set<nat>, phys': Phys, src: Source)
    requires Sound(kernel, pd, phys0, used0, phys, used, src) && Laid(phys, used, pd, frames, f, before)
        && used0 <= before
    requires Usable(phys', used, pd) && StackStep(kernel, pd, used, phys, phys', frames)
    ensures Sound(kernel, pd, phys0, used0, phys', used, src)
  {
    hide Usable, Clean, IsOwned, IsKernel, OnKernelSlot, Roomy, TableExact, Stacked, PageIs;
    if TableExact(src) && Clean(phys0, used0, kernel, pd) && Roomy(phys0, kernel, pd, src.bytes) {
      CleanSpaces(phys0, used0, kernel, pd);
      forall k | 0 <= k < |frames| ensures !IsKernel(phys, kernel,
          frames[k]) { NotKernels(phys0, used0, kernel, pd, frames[k]); }
    }
    SoundWritesIf(kernel, pd, phys0, used0, phys, used, phys', src);
  }

  lemma SoundCode(kernel: nat, pd: nat, phys0: Phys, used0: set<nat>, phys: Phys, used: set<nat>, frames: seq<nat>,
      f: FrameNo, before: set<nat>, bytes: Bytes4K, src: Source)
    requires Sound(kernel, pd, phys0, used0, phys, used, src) && Laid(phys, used, pd, frames, f, before)
        && used0 <= before
    requires Usable(phys[f := Data(bytes)], used, pd)
    ensures Sound(kernel, pd, phys0, used0, phys[f := Data(bytes)], used, src)
  {
    hide Usable, Clean, IsOwned, IsKernel, OnKernelSlot, Roomy, TableExact, Stacked, Translate;
    if TableExact(src) && Clean(phys0, used0, kernel, pd) && Roomy(phys0, kernel, pd, src.bytes) {
      CleanSpaces(phys0, used0, kernel, pd);
      NotKernels(phys0, used0, kernel, pd, f);
      WriteClean(kernel, pd, phys, used, f, bytes);
    }
    SoundWritesIf(kernel, pd, phys0, used0, phys, used, phys[f := Data(bytes)], src);
  }

  /** A program that can be started: its image, then its stack and the trampoline, are affordable, and its arguments
      fit. */
  ghost predicate ExecOk(b: Budget, src: Source, args: seq<seq<byte>>) {
    && ImageOk(b, src) && Accepted(args)
    && var b' := AfterSegments(b, src.bytes, 0);
    Affords(b', FIRST, PAGES) && Affords(Spent(b', FIRST, PAGES), TRAMPOLINE, 1)
  }

  lemma ExecOkIs(b: Budget, src: Source, args: seq<seq<byte>>)
    requires HasHeaders(src.bytes)
    ensures var b' := AfterSegments(b, src.bytes, 0);
            ExecOk(b, src, args) ==
            (ImageOk(b, src) && Accepted(args) && Affords(b', FIRST, PAGES)
             && Affords(Spent(b', FIRST, PAGES), TRAMPOLINE, 1))
  {
  }

  lemma ImageFirst(b: Budget, src: Source, args: seq<seq<byte>>)
    ensures ExecOk(b, src, args) ==> ImageOk(b, src)
  {
  }

  /** The stack's contents and the trampoline's code, in pages already there. */
  method Furnish(mem: Memory, pd: FrameNo, src: Source, args: seq<seq<byte>>, entry: u32, ghost frames: seq<nat>,
      f: FrameNo, ghost phys0: Phys, ghost used0: set<nat>, ghost phys2: Phys, ghost used2: set<nat>)
    returns (ok: bool, argv: u32, stack: u32)
    requires mem.Ready() && Sound(mem.kernel, pd, phys0, used0, mem.phys, mem.pmm.UsedFrames(), src) && used0 <= used2
    requires Laid(mem.phys, mem.pmm.UsedFrames(), pd, frames, f, used2) && Beyond(phys2, used2, pd, mem.phys)
        && used2 <= mem.pmm.UsedFrames()
    requires TableExact(src) ==> HasHeaders(src.bytes) && LoadedUpTo(phys2, used2, pd, src, PhNum(src.bytes))
    modifies mem`phys
    ensures Sound(mem.kernel, pd, phys0, used0, mem.phys, mem.pmm.UsedFrames(), src)
    ensures ok ==>
      && Accepted(args) && |args| < U32 && Built(mem.phys, pd, args, argv, stack)
      && CodeIn(mem.phys, pd, Code(argv, |args|, entry))
    ensures ok && TableExact(src) ==> ImageIn(mem.phys, mem.pmm.UsedFrames(), pd, src)
    ensures !ok && mem.granted ==> !Accepted(args)
  {
    hide Usable, Memory.Ready, Sound, Region, Laid, Beyond, Built, FlatBuilt, CodeIn, ImageIn, LoadedUpTo, StackStep,
        Stacked, Flat, OnlyFrames, Code, Accepted, TableExact, Space, HasHeaders, PhNum;
    argv, stack := 0, 0;
    ghost var phys4, used4 := mem.phys, mem.pmm.UsedFrames();
    LaidStacked(phys4, used4, pd, frames, f, used2);
    ok, stack, argv := BuildStack(mem, pd, args, used4, frames);
    LaidWrites(phys2, pd, phys4, used4, frames, f, used2, mem.phys);
    LaidStacked(mem.phys, used4, pd, frames, f, used2);
    SoundStack(mem.kernel, pd, phys0, used0, phys4, used4, frames, f, used2, mem.phys, src);
    if !ok { return; }
    var mapped := mem.Grant();
    if !mapped { return false, 0, 0; }
    AtMost32(args);
    ghost var phys5 := mem.phys;
    var code := Code(argv, |args|, entry);
    var bytes: Bytes4K := code + Zeros(4096 - 26);
    LaidCode(phys2, pd, phys5, used4, frames, f, used2, bytes);
    mem.phys := mem.phys[f := Data(bytes)];
    LaidStacked(mem.phys, used4, pd, frames, f, used2);
    SoundCode(mem.kernel, pd, phys0, used0, phys5, used4, frames, f, used2, bytes, src);
    assert bytes[..26] == code;
    CodeSeen(mem.phys, used4, pd, f, code);
    FlatIsBuilt(mem.phys, used4, pd, frames, args, argv, stack);
    if TableExact(src) { ImageBeyond(phys2, used2, pd, src, mem.phys, used4); }
    var task := mem.Grant();
    if !task { return false, 0, 0; }
  }

  /** The image, the stack and the trampoline in a new space. */
  method Populate(mem: Memory, pd: FrameNo, src: Source, args: seq<seq<byte>>, ghost phys0: Phys, ghost used0: set<nat>)
    returns (ok: bool, argv: u32, stack: u32)
    requires mem.Ready() && pd != 0 && phys0 == mem.phys && used0 == mem.pmm.UsedFrames() && Usable(phys0, used0, pd)
        && pd in used0
    modifies mem`phys, mem.pmm`count, mem.pmm.bitmap
    ensures mem.Ready() && Sound(mem.kernel, pd, phys0, used0, mem.phys, mem.pmm.UsedFrames(), src)
    ensures ok ==>
      && Validates(src.bytes) && Accepted(args) && |args| < U32 && Built(mem.phys, pd, args, argv, stack)
      && CodeIn(mem.phys, pd, Code(argv, |args|, EntryOf(src.bytes)))
    ensures ok && TableExact(src) ==> ImageIn(mem.phys, mem.pmm.UsedFrames(), pd, src)
    ensures ok && TableExact(src) ==> ExecOk(old(mem.Purse(pd)), src, args)
    ensures !ok && mem.granted && TableExact(src) ==> !ExecOk(old(mem.Purse(pd)), src, args)
  {
    hide Usable, Memory.Ready, Sound, ImageStep, CleanStep, SegStep, Region, Filled, Laid, Beyond, Built, CodeIn,
        ImageIn, LoadedUpTo, PageTried, Validates, EntryOf, Code, Accepted, TableExact, AddPage, Used1, FreshFrames,
        Space, PtOk, Funds, ImageOk, AfterSegments, Affords, Spent, ExecOk, HasHeaders, PhNum, PhEntSize, AllNew;
    ImageFirst(mem.Purse(pd), src, args);
    argv, stack := 0, 0;
    var entry;
    ok, entry := LoadImage(mem, pd, src);
    SoundImage(mem.kernel, pd, phys0, used0, mem.phys, mem.pmm.UsedFrames(), src);
    if !ok { return; }
    if TableExact(src) { ExecOkIs(old(mem.Purse(pd)), src, args); }
    ghost var phys2, used2 := mem.phys, mem.pmm.UsedFrames();
    LowData(phys2, used2, pd);
    var frames;
    ok, frames := AllocatePages(mem, pd, FIRST, PAGES, true, used2);
    ghost var phys3, used3 := mem.phys, mem.pmm.UsedFrames();
    StepMeans(phys2, used2, pd, phys3, used3, FIRST, PAGES);
    SoundPages(mem.kernel, pd, phys0, used0, phys2, used2, phys3, used3, src, FIRST, PAGES);
    if !ok { return; }
    BeyondStack(phys2, used2, pd, phys3, used3);
    var f, pt := AddFreshPage(mem, pd, TRAMPOLINE, true, used3);
    ghost var used4 := mem.pmm.UsedFrames();
    AddedUsable(mem.phys, used4, pd, phys3, used3, f, pt);
    SoundPages(mem.kernel, pd, phys0, used0, phys3, used3, mem.phys, used4, src, TRAMPOLINE, 1);
    if f == 0 { return false, 0, 0; }
    LaidDown(phys2, used2, pd, phys3, used3, frames, f, pt);
    ok, argv, stack := Furnish(mem, pd, src, args, entry, frames, f, phys0, used0, phys2, used2);
  }

  lemma AtMost32(args: seq<seq<byte>>)
    requires Accepted(args)
    ensures |args| <= 32
  {
  }

  lemma LaidStacked(phys: Phys, used: set<nat>, pd: nat, frames: seq<nat>, f: FrameNo, before: set<nat>)
    requires Laid(phys, used, pd, frames, f, before)
    ensures Usable(phys, used, pd) && Stacked(phys, used, pd, frames) && PageIs(phys, used, pd, TRAMPOLINE, f)
  {
  }

  lemma AddedUsable(phys': Phys, used': set<nat>, pd: nat, phys: Phys, used: set<nat>, f: FrameNo, pt: FrameNo)
    requires Usable(phys, used, pd)
    requires f == 0 ==> PageTried(phys, used, pd, phys', used', TRAMPOLINE)
    requires f != 0 ==>
      && FreshFrames(phys, used, pd, TRAMPOLINE, f, pt) && Space(phys, pd) && PtOk(phys, pd, TRAMPOLINE, pt)
      && phys' == AddPage(phys, pd, TRAMPOLINE, f, pt) && used' == Used1(phys, used, pd, TRAMPOLINE, f, pt)
    ensures Usable(phys', used', pd) && used <= used'
  {
    hide Usable, Translate, At, AddPage, Space;
    if f != 0 { AddPageStep(phys, used, pd, TRAMPOLINE, f, pt); }
  }

  /**
   exec_elf_vnode_args, as far as memory goes. On success the program finds its image, its arguments and the
   trampoline; where the kernel has no pages of its own the space is clean and shares no frame with anyone. Either
   way no frame that was in use before is given back. It succeeds only on a program that can be started, and on every
   one if nothing but frames can be refused.
   */
  method ExecImage(mem: Memory, src: Source, args: seq<seq<byte>>) returns (pd: FrameNo, argv: u32, stack: u32)
    requires mem.Valid()
    modifies mem`phys, mem.pmm`count, mem.pmm.bitmap
    ensures mem.Ready()
    ensures pd != 0 ==>
      && Validates(src.bytes) && Accepted(args) && |args| < U32 && Built(mem.phys, pd, args, argv, stack)
      && CodeIn(mem.phys, pd, Code(argv, |args|, EntryOf(src.bytes)))
    ensures pd != 0 && TableExact(src) ==> ImageIn(mem.phys, mem.pmm.UsedFrames(), pd, src)
    ensures pd != 0 && TableExact(src) ==>
          0 < old(mem.Free()) && ExecOk(Budget(old(mem.Free()) - 1, Tables(old(mem.phys), mem.kernel)), src, args)
    ensures pd == 0 && mem.granted && TableExact(src) && 0 < old(mem.Free()) ==>
          !ExecOk(Budget(old(mem.Free()) - 1, Tables(old(mem.phys), mem.kernel)), src, args)
    ensures TableExact(src) && Roomy(old(mem.phys), mem.kernel, mem.kernel, src.bytes) ==>
      && old(mem.pmm.UsedFrames()) <= mem.pmm.UsedFrames()
      && (pd != 0 ==> Clean(mem.phys, mem.pmm.UsedFrames(), mem.kernel, pd)
                      && forall f :: IsOwned(mem.phys, mem.kernel, pd, f) ==> f !in old(mem.pmm.UsedFrames()))
  {
    hide Usable, Memory.Ready, Sound, Built, CodeIn, ImageIn, Validates, EntryOf, Code, Accepted, TableExact, Clean,
        IsOwned, Roomy, CopyOf, FreeList, ExecOk, FreeFrames, Tables;
    argv, stack := 0, 0;
    ghost var old0, kernel := mem.pmm.UsedFrames(), mem.kernel;
    ghost var physOld := mem.phys;
    KernelIs(mem);
    pd := mem.CreateAddressSpace();
    if pd == 0 { return; }
    ghost var phys0, used0 := mem.phys, mem.pmm.UsedFrames();
    CreatedUsable(phys0, used0, kernel, pd);
    ghost var roomy := TableExact(src) && Roomy(physOld, kernel, kernel, src.bytes);
    if roomy { CreatedRoomy(physOld, kernel, phys0, pd, src.bytes); }
    forall f | IsOwned(phys0, kernel, pd, f) ensures f == pd { CreatedOwns(physOld, kernel, phys0, pd, f); }
    var ok;
    ok, argv, stack := Populate(mem, pd, src, args, phys0, used0);
    ghost var phys, used := mem.phys, mem.pmm.UsedFrames();
    if roomy {
      SoundClean(kernel, pd, phys0, used0, phys, used, src);
      forall f | IsOwned(phys, kernel, pd, f)
          ensures f !in old0 { SoundOwns(kernel, pd, old0, phys0, used0, phys, used, src, f); }
    }
    if !ok {
      SoundUsable(kernel, pd, phys0, used0, phys, used, src);
      Discard(mem, pd);
      pd := 0;
    }
  }

  /** What Valid says of the kernel's directory. */
  lemma KernelIs(mem: Memory)
    requires mem.Valid()
    ensures Space(mem.phys, mem.kernel) && mem.kernel in mem.pmm.UsedFrames() && 0 in mem.pmm.UsedFrames()
  {
  }

  lemma CreatedUsable(phys: Phys, used: set<nat>, kernel: nat, pd: nat)
    requires Clean(phys, used, kernel, pd) && Low(phys, used, pd) && PagesUsed(phys, used, pd)
    ensures Usable(phys, used, pd) && pd in used
  {
    CleanSpaces(phys, used, kernel, pd);
  }

  lemma SoundClean(kernel: nat, pd: nat, phys0: Phys, used0: set<nat>, phys: Phys, used: set<nat>, src: Source)
    requires Sound(kernel, pd, phys0, used0, phys, used, src) && TableExact(src) && Clean(phys0, used0, kernel, pd)
        && Roomy(phys0, kernel, pd, src.bytes)
    ensures Clean(phys, used, kernel, pd) && used0 <= used
  {
    hide Usable, Clean, IsOwned, IsKernel, OnKernelSlot, Roomy, TableExact;
  }

  /** paging_destroy_address_space after a failure: it frees only what the space owns. */
  method Discard(mem: Memory, pd: FrameNo)
    requires mem.Ready() && pd != 0 && pd != mem.kernel && Usable(mem.phys, mem.pmm.UsedFrames(), pd)
    modifies mem.pmm`count, mem.pmm.bitmap
    ensures mem.Ready()
    ensures forall f ::
          f in mem.pmm.UsedFrames() <==> f in old(mem.pmm.UsedFrames()) && !IsOwned(mem.phys, mem.kernel, pd, f)
  {
    hide Usable, FreeList, IsOwned, Clean, IsKernel, Once;
    ghost var used, kernel := mem.pmm.UsedFrames(), mem.kernel;
    forall f ensures f in FreeList(mem.phys, kernel, pd) <==>
          IsOwned(mem.phys, kernel, pd, f) { FreeListIsOwned(mem.phys, kernel, pd, f); }
    forall f | IsOwned(mem.phys, kernel, pd, f) ensures f in used
        && f != 0 { OwnedUsed(mem.phys, used, kernel, pd, f); }
    var freed := mem.DestroyAddressSpace(pd);
  }

  lemma SoundUsable(kernel: nat, pd: nat, phys0: Phys, used0: set<nat>, phys: Phys, used: set<nat>, src: Source)
    requires Sound(kernel, pd, phys0, used0, phys, used, src)
    ensures Usable(phys, used, pd)
  {
  }
}
