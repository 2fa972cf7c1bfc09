/** Loading a whole ELF image: header, program headers, and every loadable segment. */
module ElfImage {
  import opened Machine
  import opened PageTable
  import opened Spaces
  import opened Paging
  import opened Budgets
  import opened UserSpace
  import opened CleanSpace
  import opened Elf

  const EHDR: nat := 52
  const PHDR: nat := 32
  const PT_LOAD: u32 := 1

  /** elf32_validate: magic, 32-bit, little-endian, executable, for the 386. */
  predicate Validates(b: seq<byte>) {
    && |b| >= EHDR && b[0] == 0x7F && b[1] == 0x45 && b[2] == 0x4C && b[3] == 0x46
    && b[4] == 1 && b[5] == 1 && Le16(b, 16) == 2 && Le16(b, 18) == 3
  }

  function EntryOf(b: seq<byte>): u32
    requires |b| >= EHDR
  {
    Le32(b, 24)
  }

  function PhOff(b: seq<byte>): u32
    requires |b| >= EHDR
  {
    Le32(b, 28)
  }

  function PhEntSize(b: seq<byte>): u16
    requires |b| >= EHDR
  {
    Le16(b, 42)
  }

  function PhNum(b: seq<byte>): u16
    requires |b| >= EHDR
  {
    Le16(b, 44)
  }

  function ParsePhdr(b: seq<byte>, o: nat): Phdr
    requires o + PHDR <= |b|
  {
    Phdr(Le32(b, o), Le32(b, o + 4), Le32(b, o + 8), Le32(b, o + 16), Le32(b, o + 20))
  }

  /** The table of program headers lies inside the image. */
  predicate HasHeaders(b: seq<byte>) {
    |b| >= EHDR && PhOff(b) + PhNum(b) * PHDR <= |b|
  }

  function PhdrAt(b: seq<byte>, i: nat): Phdr
    requires HasHeaders(b) && i < PhNum(b)
  {
    ParsePhdr(b, PhOff(b) + i * PHDR)
  }

  /** Two segments that share no page. */
  predicate Disjoint(a: Phdr, b: Phdr) {
    FirstPage(a) + SpanOf(a) <= FirstPage(b) || FirstPage(b) + SpanOf(b) <= FirstPage(a)
  }

  /** A step that leaves a loaded segment's pages and the frames in use alone leaves the segment as it is. */
  lemma LoadedKept(phys: Phys, used: set<nat>, pd: nat, file: seq<byte>, ph: Phdr, phys': Phys, used': set<nat>)
    requires Loaded(phys, used, pd, file, ph) && EndFits(ph) && used <= used' && DataKept(phys, used - {0}, phys')
    requires forall q: nat | FirstPage(ph) <= q < FirstPage(ph) + SpanOf(ph) ::
          Translate(phys', pd, q) == Translate(phys, pd, q)
    ensures Loaded(phys', used', pd, file, ph)
  {
    hide Translate, PageCount, Span;
    if ph.memsz != 0 {
      PageSpan(ph);
      SpanIsCount(ph);
      forall i: nat | i < ph.memsz ensures ByteLoaded(phys', used', pd, file, ph, i) {
        assert ByteLoaded(phys, used, pd, file, ph, i);
        var page := (ph.vaddr + i) / PAGE;
        assert FirstPage(ph) <= page < FirstPage(ph) + PageCount(ph) by {
          PageInside(ph, i);
          SplitAddress(ph.vaddr, i);
        }
        assert Translate(phys', pd, page) == Translate(phys, pd, page);
      }
    }
  }

  /** A later load on other pages. */
  lemma LoadedStays(phys: Phys, used: set<nat>, pd: nat, file: seq<byte>, ph: Phdr, phys': Phys, used': set<nat>,
      other: Phdr)
    requires Loaded(phys, used, pd, file, ph) && Moved(phys, used, pd, phys', used', FirstPage(other), SpanOf(other))
        && Disjoint(ph, other) && EndFits(ph)
    ensures Loaded(phys', used', pd, file, ph)
  {
    hide Translate, Loaded, Usable, SpanOf;
    SpanOfFits(ph);
    LoadedKept(phys, used, pd, file, ph, phys', used');
  }

  lemma SpanOfFits(ph: Phdr)
    ensures FirstPage(ph) + SpanOf(ph) <= FRAMES
  {
    SpanFits(ph);
  }

  lemma SliceReads32(b: seq<byte>, lo: nat, hi: nat, o: nat)
    requires lo + o + 4 <= hi <= |b|
    ensures Le32(b[lo..hi], o) == Le32(b, lo + o)
  {
  }

  lemma SliceReads16(b: seq<byte>, hi: nat, o: nat)
    requires o + 2 <= hi <= |b|
    ensures Le16(b[..hi], o) == Le16(b, o)
  {
  }

  lemma HeaderReads(b: seq<byte>)
    requires |b| >= EHDR
    ensures var h := b[0..EHDR];
            Validates(h) == Validates(b) && EntryOf(h) == EntryOf(b) && PhOff(h) == PhOff(b)
                && PhEntSize(h) == PhEntSize(b) && PhNum(h) == PhNum(b)
  {
    hide Le16, Le32;
    assert b[..EHDR] == b[0..EHDR];
    SliceReads32(b, 0, EHDR, 24);
    SliceReads32(b, 0, EHDR, 28);
    SliceReads16(b, EHDR, 16);
    SliceReads16(b, EHDR, 18);
    SliceReads16(b, EHDR, 42);
    SliceReads16(b, EHDR, 44);
  }

  lemma PhdrReads(b: seq<byte>, i: nat)
    requires HasHeaders(b) && i < PhNum(b)
    ensures ParsePhdr(b[PhOff(b)..PhOff(b) + PhNum(b) * PHDR], i * PHDR) == PhdrAt(b, i)
  {
    hide Le16, Le32;
    var lo, hi, o := PhOff(b), PhOff(b) + PhNum(b) * PHDR, i * PHDR;
    SliceReads32(b, lo, hi, o);
    SliceReads32(b, lo, hi, o + 4);
    SliceReads32(b, lo, hi, o + 8);
    SliceReads32(b, lo, hi, o + 16);
    SliceReads32(b, lo, hi, o + 20);
  }

  /** Neither the segment's rounded end nor the end of its bytes in the image wraps. */
  predicate Exact(src: Source, ph: Phdr) { EndFits(ph) && ReadExact(src, ph.offset, ph.filesz) }

  /** The end of the table of program headers does not wrap. */
  predicate TableExact(src: Source) { |src.bytes| >= EHDR ==>
        ReadExact(src, PhOff(src.bytes), PhNum(src.bytes) * PHDR) }

  /** No later loadable segment below n shares a page with the k-th. */
  ghost predicate Untouched(b: seq<byte>, k: nat, n: nat)
    requires HasHeaders(b) && k < n <= PhNum(b)
  {
    forall l: nat | k < l < n && PhdrAt(b, l).ptype == PT_LOAD :: Disjoint(PhdrAt(b, k), PhdrAt(b, l))
  }

  /** The first n headers are done: their segments are loaded, unless an end wraps or a later one overwrote a page. */
  ghost predicate LoadedUpTo(phys: Phys, used: set<nat>, pd: nat, src: Source, n: nat)
    requires HasHeaders(src.bytes) && n <= PhNum(src.bytes)
  {
    var b := src.bytes;
    forall k: nat | k < n && PhdrAt(b, k).ptype == PT_LOAD && Exact(src, PhdrAt(b, k))
        && Untouched(b, k, n) :: Loaded(phys, used, pd, b, PhdrAt(b, k))
  }

  lemma NextLoaded(phys: Phys, used: set<nat>, pd: nat, src: Source, n: nat, phys': Phys, used': set<nat>)
    requires HasHeaders(src.bytes) && n < PhNum(src.bytes) && LoadedUpTo(phys, used, pd, src, n)
    requires if PhdrAt(src.bytes, n).ptype == PT_LOAD then
               var ph := PhdrAt(src.bytes, n);
               Moved(phys, used, pd, phys', used', FirstPage(ph), SpanOf(ph))
                   && (Exact(src, ph) ==> Loaded(phys', used', pd, src.bytes, ph))
             else phys' == phys && used' == used
    ensures LoadedUpTo(phys', used', pd, src, n + 1)
  {
    hide Moved, Loaded, PhdrAt, HasHeaders, Disjoint, EndFits, ReadExact;
    var b := src.bytes;
    forall k: nat | k < n + 1 && PhdrAt(b, k).ptype == PT_LOAD && Exact(src, PhdrAt(b, k)) && Untouched(b, k, n + 1)
      ensures Loaded(phys', used', pd, b, PhdrAt(b, k))
    {
      if k < n {
        assert Untouched(b, k, n);
        if PhdrAt(b, n).ptype == PT_LOAD {
          LoadedStays(phys, used, pd, b, PhdrAt(b, k), phys', used', PhdrAt(b, n));
        }
      }
    }
  }

  /** No loadable segment has a page in a slot of the kernel's. */
  ghost predicate ImageFree(phys: Phys, kernel: nat, pd: nat, b: seq<byte>) {
    HasHeaders(b) ==>
      forall k: nat | k < PhNum(b) && PhdrAt(b, k).ptype == PT_LOAD ::
            SlotsFree(phys, kernel, pd, FirstPage(PhdrAt(b, k)), SpanOf(PhdrAt(b, k)))
  }

  ghost predicate ImageStep(kernel: nat, pd: nat, phys0: Phys, used0: set<nat>, phys: Phys, used: set<nat>,
      b: seq<byte>) {
    var step := Clean(phys0, used0, kernel, pd) && ImageFree(phys0, kernel, pd, b) ==>
          Tidied(kernel, pd, phys0, used0, phys, used);
    step
  }

  lemma NoImageStep(kernel: nat, pd: nat, phys: Phys, used: set<nat>, b: seq<byte>)
    ensures ImageStep(kernel, pd, phys, used, phys, used, b)
  {
    hide Clean, IsOwned, IsKernel, OnKernelSlot, ImageFree;
  }

  lemma ImageThen(kernel: nat, pd: nat, a: Phys, ua: set<nat>, p: Phys, up: set<nat>, c: Phys, uc: set<nat>,
      b: seq<byte>, k: nat)
    requires ImageStep(kernel, pd, a, ua, p, up, b) && HasHeaders(b) && k < PhNum(b) && PhdrAt(b, k).ptype == PT_LOAD
        && ua <= up
    requires CleanStep(kernel, pd, p, up, c, uc, FirstPage(PhdrAt(b, k)), SpanOf(PhdrAt(b, k)))
    ensures ImageStep(kernel, pd, a, ua, c, uc, b)
  {
    hide Clean, IsOwned, IsKernel, OnKernelSlot, PhdrAt, HasHeaders, SpanOf, FirstPage;
    if Clean(a, ua, kernel, pd) && ImageFree(a, kernel, pd, b) {
      assert SlotsFree(a, kernel, pd, FirstPage(PhdrAt(b, k)), SpanOf(PhdrAt(b, k)));
      TidiedThen(kernel, pd, a, ua, p, up, c, uc);
    }
  }

  /** The loadable segments from the k-th header on can all be loaded, one after the other. */
  predicate SegmentsOk(b: Budget, src: Source, k: nat)
    requires HasHeaders(src.bytes) && k <= PhNum(src.bytes)
    decreases PhNum(src.bytes) - k
  {
    k == PhNum(src.bytes) ||
    var ph := PhdrAt(src.bytes, k);
    if ph.ptype != PT_LOAD then SegmentsOk(b, src, k + 1)
    else SegmentOk(b, src, ph) && SegmentsOk(AfterSegment(b, ph), src, k + 1)
  }

  /** The budget once they are. */
  function AfterSegments(b: Budget, bytes: seq<byte>, k: nat): Budget
    requires HasHeaders(bytes) && k <= PhNum(bytes)
    decreases PhNum(bytes) - k
  {
    if k == PhNum(bytes) then b
    else
      var ph := PhdrAt(bytes, k);
      AfterSegments(if ph.ptype == PT_LOAD then AfterSegment(b, ph) else b, bytes, k + 1)
  }

  /** An image that can be loaded: a header and a table of program headers as expected, and all segments. */
  predicate ImageOk(b: Budget, src: Source) {
    && Validates(src.bytes) && PhEntSize(src.bytes) == PHDR && PhNum(src.bytes) != 0 && HasHeaders(src.bytes)
    && SegmentsOk(b, src, 0)
  }

  /** Where its end does not wrap, the table of program headers is read exactly if it lies inside the image. */
  lemma TableReadable(src: Source)
    requires |src.bytes| >= EHDR && TableExact(src) && PhNum(src.bytes) != 0
    ensures ReadExact(src, PhOff(src.bytes), PhNum(src.bytes) * PHDR)
    ensures Readable(src, PhOff(src.bytes), PhNum(src.bytes) * PHDR) <==> HasHeaders(src.bytes)
  {
  }

  lemma HeaderReadable(src: Source)
    ensures ReadExact(src, 0, EHDR) && (Readable(src, 0, EHDR) <==> |src.bytes| >= EHDR)
    ensures Validates(src.bytes) ==> |src.bytes| >= EHDR
  {
  }

  /** Before the k-th header, what is left can be loaded exactly if the whole image can. */
  ghost predicate InStep(b0: Budget, b: Budget, src: Source, k: nat)
    requires HasHeaders(src.bytes) && k <= PhNum(src.bytes)
  {
    && (SegmentsOk(b0, src, 0) <==> SegmentsOk(b, src, k))
    && AfterSegments(b0, src.bytes, 0) == AfterSegments(b, src.bytes, k)
  }

  lemma StepsOn(b0: Budget, b: Budget, b': Budget, src: Source, k: nat)
    requires HasHeaders(src.bytes) && k < PhNum(src.bytes) && InStep(b0, b, src, k)
    requires var ph := PhdrAt(src.bytes, k);
             if ph.ptype == PT_LOAD then SegmentOk(b, src, ph) && b' == AfterSegment(b, ph) else b' == b
    ensures InStep(b0, b', src, k + 1)
  {
    hide PhdrAt, SegmentOk, AfterSegment;
  }

  lemma StepFails(b0: Budget, b: Budget, src: Source, k: nat)
    requires HasHeaders(src.bytes) && k < PhNum(src.bytes) && InStep(b0, b, src, k)
    requires PhdrAt(src.bytes, k).ptype == PT_LOAD && !SegmentOk(b, src, PhdrAt(src.bytes, k))
    ensures !SegmentsOk(b0, src, 0)
  {
    hide PhdrAt, SegmentOk, AfterSegment;
  }

  lemma StepsDone(b0: Budget, b: Budget, src: Source)
    requires HasHeaders(src.bytes) && InStep(b0, b, src, PhNum(src.bytes))
    ensures SegmentsOk(b0, src, 0) && b == AfterSegments(b0, src.bytes, 0)
  {
    hide PhdrAt, SegmentOk, AfterSegment;
  }

  /** The loop over the program headers. */
  method LoadAll(mem: Memory, pd: nat, src: Source, table: seq<byte>, num: u16) returns (ok: bool)
    requires mem.Ready() && pd != 0 && Usable(mem.phys, mem.pmm.UsedFrames(), pd) && |table| == num * PHDR
    requires TableExact(src) ==>
          HasHeaders(src.bytes) && num == PhNum(src.bytes)
          && table == src.bytes[PhOff(src.bytes)..PhOff(src.bytes) + num * PHDR]
    modifies mem`phys, mem.pmm`count, mem.pmm.bitmap
    ensures mem.Ready() && Usable(mem.phys, mem.pmm.UsedFrames(), pd)
        && old(mem.pmm.UsedFrames()) <= mem.pmm.UsedFrames()
    ensures TableExact(src) ==>
          ImageStep(mem.kernel, pd, old(mem.phys), old(mem.pmm.UsedFrames()), mem.phys, mem.pmm.UsedFrames(), src.bytes)
    ensures ok && TableExact(src) ==> LoadedUpTo(mem.phys, mem.pmm.UsedFrames(), pd, src, PhNum(src.bytes))
    ensures ok && TableExact(src) ==>
          SegmentsOk(old(mem.Purse(pd)), src, 0) && mem.Purse(pd) == AfterSegments(old(mem.Purse(pd)), src.bytes, 0)
    ensures !ok && mem.granted && TableExact(src) ==> !SegmentsOk(old(mem.Purse(pd)), src, 0)
  {
    hide Usable, Memory.Ready, PhOff, PhNum, ParsePhdr, LoadedUpTo, Loaded, Moved, SegStep, CleanStep, ImageStep, Fresh,
        Span, Exact, SegmentsOk, AfterSegments, InStep, SegmentOk, AfterSegment, Funds, PageCount, ReadExact, EndFits;
    ghost var phys0, used0 := mem.phys, mem.pmm.UsedFrames();
    ghost var purse := mem.Purse(pd);
    NoImageStep(mem.kernel, pd, phys0, used0, src.bytes);
    if TableExact(src) {
      NothingLoaded(mem.phys, mem.pmm.UsedFrames(), pd, src);
      StepsStart(purse, src);
    }
    var i := 0;
    while i < num
      invariant 0 <= i <= num && mem.Ready() && Usable(mem.phys, mem.pmm.UsedFrames(), pd)
          && used0 <= mem.pmm.UsedFrames()
      invariant TableExact(src) ==> LoadedUpTo(mem.phys, mem.pmm.UsedFrames(), pd, src, i)
      invariant TableExact(src) ==> ImageStep(mem.kernel, pd, phys0, used0, mem.phys, mem.pmm.UsedFrames(), src.bytes)
      invariant TableExact(src) ==> InStep(purse, mem.Purse(pd), src, i)
    {
      ghost var left := mem.Purse(pd);
      ghost var phys, used := mem.phys, mem.pmm.UsedFrames();
      if TableExact(src) { PhdrReads(src.bytes, i); }
      var ph := ParsePhdr(table, i * PHDR);
      if ph.ptype == PT_LOAD {
        ok := LoadSegment(mem, pd, src, ph);
        MovedMeans(phys, used, pd, mem.phys, mem.pmm.UsedFrames(), FirstPage(ph), SpanOf(ph));
        if TableExact(src) { ImageThen(mem.kernel, pd, phys0, used0, phys, used, mem.phys, mem.pmm.UsedFrames(),
            src.bytes, i); }
        if !ok {
          if mem.granted && TableExact(src) { StepFails(purse, left, src, i); }
          return;
        }
        ExactIs(src, ph);
      }
      if TableExact(src) {
        NextLoaded(phys, used, pd, src, i, mem.phys, mem.pmm.UsedFrames());
        StepsOn(purse, left, mem.Purse(pd), src, i);
      }
      i := i + 1;
    }
    if TableExact(src) { StepsDone(purse, mem.Purse(pd), src); }
    ok := true;
  }

  /**
   elf32_load_image and elf32_load_image_from_memory. It succeeds only on an image that can be loaded, and on every one
   if nothing but frames can be refused. Every segment is loaded except where an end wraps or a later
   segment took a page; a clean space stays clean when no segment touches a slot of the kernel's.
   */
  method LoadImage(mem: Memory, pd: nat, src: Source) returns (ok: bool, entry: u32)
    requires mem.Ready() && pd != 0 && Usable(mem.phys, mem.pmm.UsedFrames(), pd)
    modifies mem`phys, mem.pmm`count, mem.pmm.bitmap
    ensures mem.Ready() && Usable(mem.phys, mem.pmm.UsedFrames(), pd)
        && old(mem.pmm.UsedFrames()) <= mem.pmm.UsedFrames()
    ensures TableExact(src) ==>
          ImageStep(mem.kernel, pd, old(mem.phys), old(mem.pmm.UsedFrames()), mem.phys, mem.pmm.UsedFrames(), src.bytes)
    ensures ok ==>
          Validates(src.bytes) && PhEntSize(src.bytes) == PHDR && PhNum(src.bytes) != 0 && entry == EntryOf(src.bytes)
    ensures ok && TableExact(src) ==>
          HasHeaders(src.bytes) && LoadedUpTo(mem.phys, mem.pmm.UsedFrames(), pd, src, PhNum(src.bytes))
    ensures ok && TableExact(src) ==>
          ImageOk(old(mem.Purse(pd)), src) && mem.Purse(pd) == AfterSegments(old(mem.Purse(pd)), src.bytes, 0)
    ensures !ok && mem.granted && TableExact(src) ==> !ImageOk(old(mem.Purse(pd)), src)
  {
    hide Usable, Memory.Ready, Validates, EntryOf, PhOff, PhEntSize, PhNum, LoadedUpTo, ImageStep, SegmentsOk,
        AfterSegments, Funds, Readable, HasHeaders, TableExact, ReadExact, LetsThrough;
    HeaderReadable(src);
    NoImageStep(mem.kernel, pd, mem.phys, mem.pmm.UsedFrames(), src.bytes);
    ok, entry := false, 0;
    var eh;
    ok, eh := ReadFrom(mem, src, 0, EHDR);
    if !ok { return; }
    HeaderReads(src.bytes);
    if !Validates(eh) || PhEntSize(eh) != PHDR || PhNum(eh) == 0 { return false, 0; }
    if TableExact(src) { TableReadable(src); }
    var buffer := mem.Grant();
    if !buffer { return false, 0; }
    var table;
    ok, table := ReadFrom(mem, src, PhOff(eh), PhNum(eh) * PHDR);
    if !ok { return; }
    ok := LoadAll(mem, pd, src, table, PhNum(eh));
    if !ok { return; }
    return true, EntryOf(eh);
  }

  lemma StepsStart(b: Budget, src: Source)
    requires HasHeaders(src.bytes)
    ensures InStep(b, b, src, 0)
  {
  }

  lemma ExactIs(src: Source, ph: Phdr)
    ensures Exact(src, ph) <==> EndFits(ph) && ReadExact(src, ph.offset, ph.filesz)
  {
  }

  lemma MovedMeans(phys: Phys, used: set<nat>, pd: nat, phys': Phys, used': set<nat>, first: nat, n: nat)
    requires Moved(phys, used, pd, phys', used', first, n)
    ensures Usable(phys', used', pd) && used <= used'
  {
  }

  lemma NothingLoaded(phys: Phys, used: set<nat>, pd: nat, src: Source)
    requires HasHeaders(src.bytes)
    ensures LoadedUpTo(phys, used, pd, src, 0)
  {
  }

  /** Both loaders produce the same memory: what a program sees depends on the image's bytes alone. */
  lemma SameMemory(phys: Phys, used: set<nat>, pd: nat, phys': Phys, used': set<nat>, pd': nat, src: Source,
      src': Source, k: nat, i: nat)
    requires var b := src.bytes;
             src'.bytes == b && HasHeaders(b) && k < PhNum(b) && PhdrAt(b, k).ptype == PT_LOAD
                 && Untouched(b, k, PhNum(b)) && i < PhdrAt(b, k).memsz
    requires Exact(src, PhdrAt(src.bytes, k)) && Exact(src', PhdrAt(src.bytes, k))
    requires LoadedUpTo(phys, used, pd, src, PhNum(src.bytes)) && LoadedUpTo(phys', used', pd', src', PhNum(src.bytes))
    ensures UserByte(phys, pd, PhdrAt(src.bytes, k).vaddr + i) == UserByte(phys', pd', PhdrAt(src.bytes, k).vaddr + i)
    ensures UserByte(phys, pd, PhdrAt(src.bytes, k).vaddr + i).Byte?
  {
    hide UserByte, Untouched, PhdrAt, Exact;
    var b := src.bytes;
    assert ByteLoaded(phys, used, pd, b, PhdrAt(b, k), i) && ByteLoaded(phys', used', pd', b, PhdrAt(b, k), i);
  }
}
