/** The ELF segment loader: fresh zeroed pages, then the file's bytes, page by page. */
module Elf {
  import opened Machine
  import opened PageTable
  import opened Spaces
  import opened Paging
  import opened Budgets
  import opened UserSpace
  import opened CleanSpace
  import Pmm

  /** A program header, as far as the loader reads it. */
  datatype Phdr = Phdr(ptype: u32, offset: u32, vaddr: u32, filesz: u32, memsz: u32)

  /** Rounding the segment's end up to a page does not wrap. */
  predicate EndFits(ph: Phdr) { NoWrap(ph.vaddr + ph.memsz, PAGE) }

  function FirstPage(ph: Phdr): nat { ph.vaddr / PAGE }

  /** page_end, in u32 arithmetic. */
  function PageEnd(ph: Phdr): u32 { Pmm.Up(Wrap32(ph.vaddr + ph.memsz)) }

  /** page_count, in u32 arithmetic: the length of the table of pages. */
  function PageCount(ph: Phdr): nat { Wrap32(PageEnd(ph) - Pmm.Down(ph.vaddr)) / PAGE }

  /** The pages the first loop walks, from page_start up to page_end. */
  function Span(ph: Phdr): nat {
    if Pmm.Down(ph.vaddr) < PageEnd(ph) then (PageEnd(ph) - Pmm.Down(ph.vaddr)) / PAGE else 0
  }

  function SpanOf(ph: Phdr): nat { if ph.memsz == 0 then 0 else Span(ph) }

  /** The pages walked up to page_end cover the segment exactly when its end does not wrap. */
  lemma PageEndExact(ph: Phdr)
    ensures EndFits(ph) <==> ph.vaddr + ph.memsz <= PageEnd(ph)
  {
    Pmm.UpExact(Wrap32(ph.vaddr + ph.memsz));
  }

  lemma SpanFits(ph: Phdr)
    ensures FirstPage(ph) + Span(ph) < FRAMES
  {
    hide Pmm.Up;
    RoundDown(ph.vaddr);
    Pmm.UpExact(Wrap32(ph.vaddr + ph.memsz));
  }

  lemma SpanIsCount(ph: Phdr)
    requires EndFits(ph) && 0 < ph.memsz
    ensures Span(ph) == PageCount(ph) > 0
  {
    hide Pmm.Up;
    PageSpan(ph);
  }

  /** With a wrapping end the loop walks one page at most, and then the table has that one page. */
  lemma SpanWrapped(ph: Phdr)
    requires !EndFits(ph) && 0 < ph.memsz
    ensures Span(ph) <= 1 && (Span(ph) == 1 ==> PageCount(ph) == 1 && PAGE < ph.memsz && FirstPage(ph) + 1 < FRAMES)
  {
    hide Pmm.Up;
    var x := Wrap32(ph.vaddr + ph.memsz);
    Pmm.UpExact(x);
    RoundDown(ph.vaddr);
    SpanFits(ph);
    if ph.vaddr + ph.memsz >= U32 && x + PAGE - 1 < U32 { EndBelow(ph.vaddr, x, PageEnd(ph)); }
  }

  lemma EndBelow(v: nat, x: nat, end: nat)
    requires x < v < U32 && x <= end < x + PAGE && end % PAGE == 0
    ensures end <= v / PAGE * PAGE + PAGE && (end > v / PAGE * PAGE ==> v < x + PAGE)
  {
  }

  /** The highest page, taken whole: the loop walks none, and the table has one entry, still zero. */
  lemma TopPageWraps(ph: Phdr)
    requires ph.vaddr == 0xFFFF_F000 && ph.memsz == 0x1000
    ensures !EndFits(ph) && PageEnd(ph) == 0 && Span(ph) == 0 && PageCount(ph) == 1
  {
  }

  lemma PageSpan(ph: Phdr)
    requires EndFits(ph) && 0 < ph.memsz
    ensures PageEnd(ph) == (FirstPage(ph) + PageCount(ph)) * PAGE && Pmm.Down(ph.vaddr) == FirstPage(ph) * PAGE
    ensures PageCount(ph) == (ph.vaddr + ph.memsz - 1) / PAGE + 1 - FirstPage(ph)
        && FirstPage(ph) + PageCount(ph) < FRAMES
  {
    hide Pmm.Up;
    var e := ph.vaddr + ph.memsz;
    RoundUp(e);
    RoundDown(ph.vaddr);
    Spread(ph.vaddr / PAGE, (e - 1) / PAGE);
  }

  lemma RoundDown(a: u32)
    ensures Pmm.Down(a) == a / PAGE * PAGE
  {
  }

  lemma Spread(p: nat, q: nat)
    requires p <= q < FRAMES - 1
    ensures Wrap32((q + 1) * PAGE - p * PAGE) / PAGE == q + 1 - p
  {
  }

  lemma RoundUp(e: nat)
    requires 0 < e && e + PAGE - 1 < U32
    ensures Pmm.Up(e) == ((e - 1) / PAGE + 1) * PAGE
  {
  }

  /** A page of bytes mapped for the user, in a frame in use that is no structure of the space. */
  ghost predicate PageIs(phys: Phys, used: set<nat>, pd: nat, page: nat, f: nat) {
    && f < FRAMES && f in used && phys[f].Data? && Unused(phys, pd, f)
    && var m := Translate(phys, pd, page);
    m.Mapped? && m.user && m.frame == f
  }

  /** The pages allocated so far, each with a frame of its own. */
  ghost predicate Region(phys: Phys, used: set<nat>, pd: nat, first: nat, frames: seq<nat>) {
    && first + |frames| <= FRAMES
    && (forall k :: 0 <= k < |frames| ==> PageIs(phys, used, pd, first + k, frames[k]))
    && (forall k, l :: 0 <= k < l < |frames| ==> frames[k] != frames[l])
  }

  /** The byte at distance i from the segment's start: from the file, or zero. */
  function Target(data: seq<byte>, i: int): byte {
    if 0 <= i < |data| then data[i] else 0
  }

  ghost predicate FrameFilled(phys: Phys, f: nat, k: nat, off: nat, data: seq<byte>) {
    f < FRAMES && phys[f].Data? && forall o :: 0 <= o < PAGE ==> phys[f].bytes[o] == Target(data, k * PAGE + o - off)
  }

  /** The region shows data from offset off on, and zeros elsewhere. */
  ghost predicate Filled(phys: Phys, frames: seq<nat>, off: nat, data: seq<byte>) {
    forall k :: 0 <= k < |frames| ==> FrameFilled(phys, frames[k], k, off, data)
  }

  /** What loading a segment may change: its own pages, frames that were free, and nothing else. */
  ghost predicate SegStep(phys: Phys, used: set<nat>, pd: nat, phys': Phys, used': set<nat>, first: nat, n: nat) {
    var step := Usable(phys', used', pd) && used <= used' && DataKept(phys, used, phys')
      && forall q: nat | q < FRAMES && !(first <= q < first + n) :: Translate(phys', pd, q) == Translate(phys, pd, q);
    step
  }

  lemma NoStep(phys: Phys, used: set<nat>, pd: nat, first: nat, n: nat)
    requires Usable(phys, used, pd)
    ensures SegStep(phys, used, pd, phys, used, first, n)
  {
  }

  /** One more page. */
  lemma RegionGrows(phys0: Phys, used0: set<nat>, pd: nat, phys: Phys, used: set<nat>, first: nat, n: nat,
      frames: seq<nat>, f: FrameNo, pt: FrameNo)
    requires SegStep(phys0, used0, pd, phys, used, first, n) && Region(phys, used, pd, first, frames)
        && Filled(phys, frames, 0, [])
    requires |frames| < n && first + n <= FRAMES && FreshFrames(phys, used, pd, first + |frames|, f, pt)
    ensures Space(phys, pd) && PtOk(phys, pd, first + |frames|, pt)
    ensures var phys', used' := AddPage(phys, pd, first + |frames|, f, pt),
        Used1(phys, used, pd, first + |frames|, f, pt);
            && SegStep(phys0, used0, pd, phys', used', first, n) && Region(phys', used', pd, first, frames + [f as nat])
            && Filled(phys', frames + [f as nat], 0, [])
  {
    hide Space, UserClosed, Translate, AddPage, Unused, Usable;
    var page := first + |frames|;
    AddPageStep(phys, used, pd, page, f, pt);
    AddPageKeeps(phys, used, pd, page, f, pt);
    var phys', used', frames' := AddPage(phys, pd, page, f, pt), Used1(phys, used, pd, page, f, pt),
        frames + [f as nat];
    forall k | 0 <= k < |frames'| ensures PageIs(phys', used', pd, first + k, frames'[k])
        && FrameFilled(phys', frames'[k], k, 0, []) {
      StillUnused(phys, used, pd, page, f, pt, frames'[k]);
      if k < |frames| { assert PageIs(phys, used, pd, first + k, frames[k]) && FrameFilled(phys, frames[k], k, 0, []); }
    }
  }

  /** Frames in use before do not become structures. */
  lemma StillUnused(phys: Phys, used: set<nat>, pd: nat, page: nat, f: FrameNo, pt: FrameNo, g: nat)
    requires Usable(phys, used, pd) && FreshFrames(phys, used, pd, page, f, pt) && Space(phys, pd)
        && PtOk(phys, pd, page, pt)
    requires (g in used && Unused(phys, pd, g)) || g == f
    ensures Unused(AddPage(phys, pd, page, f, pt), pd, g)
  {
    hide MapIn, At, TableAt;
    var phys1 := MapIn(phys, pd, page, f, USER_RW, pt);
    MapKeepsSpace(phys, pd, page, f, USER_RW, pt);
    FreshPt(phys, used, pd, page, f, pt);
    forall i: nat | i < ENTRIES && At(phys1, pd, i).Present() ensures At(phys1, pd, i).frame != g {
      MapAt(phys, pd, page, f, USER_RW, pt, pd, i);
    }
    UnusedData(phys1, pd, f, Zeros(4096), g);
  }

  lemma UnusedData(phys: Phys, pd: nat, f: FrameNo, bytes: Bytes4K, g: nat)
    requires Space(phys, pd) && Unused(phys, pd, f) && Unused(phys, pd, g)
    ensures Unused(phys[f := Data(bytes)], pd, g)
  {
    var phys' := phys[f := Data(bytes)];
    forall i: nat ensures At(phys', pd, i) == At(phys, pd, i) {}
  }

  /** None of the frames was in use when the segment's loading began. */
  ghost predicate AllNew(frames: seq<nat>, used0: set<nat>) {
    forall k :: 0 <= k < |frames| ==> frames[k] !in used0
  }

  /** How far the copy is when it turns to page p. */
  function CopiedBefore(p: nat, off: nat): int { if p == 0 then 0 else p * PAGE - off }

  function PageOffset(p: nat, off: nat): nat { if p == 0 then off else 0 }

  /** One page's share of the data goes into its frame. */
  lemma CopyFills(phys: Phys, frames: seq<nat>, off: nat, data: seq<byte>, p: nat, chunk: nat, bytes: Bytes4K)
    requires off < PAGE && p < |frames| && 0 <= CopiedBefore(p, off) < |data|
        && chunk == Min(|data| - CopiedBefore(p, off), PAGE - PageOffset(p, off))
    requires Filled(phys, frames, off, data[..CopiedBefore(p, off)])
        && (forall k, l :: 0 <= k < l < |frames| ==> frames[k] != frames[l])
    requires frames[p] < FRAMES && phys[frames[p]].Data?
    requires bytes == Splice(phys[frames[p]].bytes, PageOffset(p, off),
        data[CopiedBefore(p, off)..CopiedBefore(p, off) + chunk])
    ensures Filled(phys[frames[p] := Data(bytes)], frames, off, data[..CopiedBefore(p, off) + chunk])
  {
    var done := CopiedBefore(p, off);
    var phys', data' := phys[frames[p] := Data(bytes)], data[..done + chunk];
    forall k | 0 <= k < |frames| ensures FrameFilled(phys', frames[k], k, off, data') {
      assert FrameFilled(phys, frames[k], k, off, data[..done]);
      forall o | 0 <= o < PAGE ensures phys'[frames[k]].bytes[o] == Target(data', k * PAGE + o - off) {
        assert phys[frames[k]].bytes[o] == Target(data[..done], k * PAGE + o - off);
      }
    }
  }

  /** A write into one of the region's frames. */
  lemma WriteRegion(phys0: Phys, used0: set<nat>, pd: nat, phys: Phys, used: set<nat>, first: nat, n: nat,
      frames: seq<nat>, p: nat, bytes: Bytes4K)
    requires SegStep(phys0, used0, pd, phys, used, first, n) && Region(phys, used, pd, first, frames)
        && AllNew(frames, used0) && p < |frames|
    ensures frames[p] < FRAMES
    ensures var phys' := phys[frames[p] := Data(bytes)];
            SegStep(phys0, used0, pd, phys', used, first, n) && Region(phys', used, pd, first, frames)
  {
    hide Space, UserClosed, Translate, Unused, Backed, Low;
    assert PageIs(phys, used, pd, first + p, frames[p]);
    DataWritten(phys, pd, frames[p], bytes);
    var phys' := phys[frames[p] := Data(bytes)];
    WriteLow(phys, used, pd, frames[p], bytes);
    forall k | 0 <= k < |frames| ensures PageIs(phys', used, pd, first + k, frames[k]) {
      assert PageIs(phys, used, pd, first + k, frames[k]);
      UnusedData(phys, pd, frames[p], bytes, frames[k]);
    }
  }

  /** Where a segment is loaded, every byte of it reads as the file says. */
  ghost predicate Loaded(phys: Phys, used: set<nat>, pd: nat, file: seq<byte>, ph: Phdr) {
    ph.memsz == 0 ||
    (&& ph.filesz <= ph.memsz && (ph.filesz > 0 ==> ph.offset + ph.filesz <= |file|)
     && forall i: nat | i < ph.memsz :: ByteLoaded(phys, used, pd, file, ph, i))
  }

  ghost predicate ByteLoaded(phys: Phys, used: set<nat>, pd: nat, file: seq<byte>, ph: Phdr, i: nat) {
    && UserByte(phys, pd, ph.vaddr + i) == Byte(if i < ph.filesz
        && ph.offset + i < |file| then file[ph.offset + i] else 0)
    && var m := Translate(phys, pd, (ph.vaddr + i) / PAGE);
    m.Mapped? && m.frame in used && m.frame != 0
  }

  lemma FilledIsLoaded(phys: Phys, used: set<nat>, pd: nat, file: seq<byte>, ph: Phdr, frames: seq<nat>,
      data: seq<byte>)
    requires 0 < ph.memsz && ph.filesz <= ph.memsz && EndFits(ph) && (ph.filesz > 0 ==> ph.offset + ph.filesz <= |file|)
    requires data == if ph.filesz == 0 then [] else file[ph.offset..ph.offset + ph.filesz]
    requires Region(phys, used, pd, FirstPage(ph), frames) && |frames| == PageCount(ph)
        && Filled(phys, frames, ph.vaddr % PAGE, data)
    requires forall k :: 0 <= k < |frames| ==> frames[k] != 0
    ensures Loaded(phys, used, pd, file, ph)
  {
    hide Translate, Unused, PageEnd, PageCount;
    PageSpan(ph);
    forall i: nat | i < ph.memsz ensures ByteLoaded(phys, used, pd, file, ph, i) {
      var a, off := ph.vaddr + i, ph.vaddr % PAGE;
      var k, o := (off + i) / PAGE, (off + i) % PAGE;
      SplitAddress(ph.vaddr, i);
      assert k < |frames| by { PageInside(ph, i); }
      assert PageIs(phys, used, pd, FirstPage(ph) + k, frames[k]) && FrameFilled(phys, frames[k], k, off, data);
      assert phys[frames[k]].bytes[o] == Target(data, k * PAGE + o - off);
    }
  }

  lemma SplitAddress(vaddr: nat, i: nat)
    ensures var off := vaddr % PAGE;
            (vaddr + i) / PAGE == vaddr / PAGE + (off + i) / PAGE && (vaddr + i) % PAGE == (off + i) % PAGE
                && (off + i) / PAGE * PAGE + (off + i) % PAGE == off + i
  {
  }

  lemma PageInside(ph: Phdr, i: nat)
    requires i < ph.memsz && EndFits(ph)
    ensures (ph.vaddr % PAGE + i) / PAGE < PageCount(ph)
  {
    PageSpan(ph);
    SplitAddress(ph.vaddr, i);
  }

  /** Where segment bytes come from: a file read through the file system, or an image in memory. */
  datatype Source = FromFile(bytes: seq<byte>) | FromImage(bytes: seq<byte>)

  /** The range ends inside 32 bits, which read_from_memory relies on. */
  predicate ReadExact(src: Source, offset: nat, size: nat) { src.FromFile? || offset + size < U32 }

  /** read_from_memory's check, in u32 arithmetic. */
  predicate LetsThrough(image: seq<byte>, offset: u32, size: u32) { Wrap32(offset + size) <= |image| }

  /** A range it lets through lies inside the image exactly when its end does not wrap. */
  lemma RangeExact(image: seq<byte>, offset: u32, size: u32)
    requires LetsThrough(image, offset, size) && |image| < U32
    ensures offset + size <= |image| <==> offset + size < U32
  {
  }

  /** A range outside every image, let through by every image of 16 bytes or more. */
  lemma RangeWraps(image: seq<byte>)
    requires 16 <= |image| < U32
    ensures LetsThrough(image, 0xFFFF_FFF0, 0x20) && 0xFFFF_FFF0 + 0x20 > |image|
  {
  }

  /** What the two readers read. */
  predicate Readable(src: Source, offset: u32, size: u32) {
    match src
    case FromFile(bytes) => size == 0 || offset + size <= |bytes|
    case FromImage(bytes) => LetsThrough(bytes, offset, size)
  }

  /**
   read_fully and read_from_memory. Opening a file may fail; otherwise a range is read exactly when it lies
   inside, except that the image variant lets a range through whose end wraps.
   */
  method ReadFrom(mem: Memory, src: Source, offset: u32, size: u32) returns (ok: bool, buf: seq<byte>)
    ensures (ok ==> Readable(src, offset, size)) && (!ok && mem.granted ==> !Readable(src, offset, size))
    ensures ok ==> |buf| == size
    ensures src.FromImage? ==> (ok <==> LetsThrough(src.bytes, offset, size))
    ensures ok && 0 < size && ReadExact(src, offset, size) ==>
          offset + size <= |src.bytes| && buf == src.bytes[offset..offset + size]
    ensures src.FromImage? && ReadExact(src, offset, size) ==> (ok <==> offset + size <= |src.bytes|)
  {
    match src {
      case FromFile(bytes) =>
        var file := mem.Grant();
        if !file { return false, []; }
        if size == 0 { return true, []; }
        if offset + size > |bytes| { return false, []; }
        return true, bytes[offset..offset + size];
      case FromImage(bytes) =>
        if !LetsThrough(bytes, offset, size) { return false, []; }
        if offset + size <= |bytes| { return true, bytes[offset..offset + size]; }
        assert |Zeros(size)| == size;
        var outside: seq<byte> :| |outside| == size;
        return true, outside;
    }
  }

  /** The first loop of load_segment, and the loop for the stack: fresh zeroed pages for the whole span. */
  method AllocatePages(mem: Memory, pd: nat, first: nat, n: nat, tidy: bool, ghost used0: set<nat>)
      returns (ok: bool, frames: seq<nat>)
    requires mem.Ready() && pd != 0 && used0 == mem.pmm.UsedFrames() && Usable(mem.phys, used0, pd)
        && first + n < FRAMES
    modifies mem`phys, mem.pmm`count, mem.pmm.bitmap
    ensures mem.Ready()
    ensures SegStep(old(mem.phys), used0, pd, mem.phys, mem.pmm.UsedFrames(), first, n)
    ensures CleanStep(mem.kernel, pd, old(mem.phys), used0, mem.phys, mem.pmm.UsedFrames(), first, n)
    ensures ok ==>
          |frames| == n && Region(mem.phys, mem.pmm.UsedFrames(), pd, first, frames) && Filled(mem.phys, frames, 0, [])
          && AllNew(frames, used0)
    ensures ok ==> Affords(old(mem.Purse(pd)), first, n) && mem.Purse(pd) == Spent(old(mem.Purse(pd)), first, n)
    ensures !ok && mem.granted ==> !Affords(old(mem.Purse(pd)), first, n)
  {
    hide SegStep, Region, Filled, Usable, Memory.Ready, CleanStep, Funds, Affords, Spent, OnTrack;
    ghost var phys0 := mem.phys;
    ghost var purse := mem.Purse(pd);
    TrackStarts(purse, first, n);
    frames := [];
    CleanStays(mem.kernel, pd, phys0, used0, used0, first, n);
    NoStep(mem.phys, used0, pd, first, n);
    NoRegion(mem.phys, used0, pd, first);
    var i := 0;
    while i < n
      invariant 0 <= i == |frames| <= n && mem.Ready() && AllNew(frames, used0)
      invariant SegStep(phys0, used0, pd, mem.phys, mem.pmm.UsedFrames(), first, n)
      invariant CleanStep(mem.kernel, pd, phys0, used0, mem.phys, mem.pmm.UsedFrames(), first, n)
      invariant Region(mem.phys, mem.pmm.UsedFrames(), pd, first, frames) && Filled(mem.phys, frames, 0, [])
      invariant OnTrack(purse, first, n, mem.Purse(pd), i)
    {
      ghost var left := mem.Purse(pd);
      ghost var phys, used := mem.phys, mem.pmm.UsedFrames();
      StepMeans(phys0, used0, pd, phys, used, first, n);
      var f, pt := AddFreshPage(mem, pd, first + i, tidy, used);
      CleanThen(mem.kernel, pd, phys0, used0, phys, used, mem.phys, mem.pmm.UsedFrames(), first, n, first + i, 1);
      if f == 0 {
        if mem.granted { TrackFails(purse, first, n, left, i); }
        StepMore(phys0, used0, pd, phys, used, mem.phys, mem.pmm.UsedFrames(), first, n, first + i);
        return false, frames;
      }
      RegionGrows(phys0, used0, pd, phys, used, first, n, frames, f, pt);
      frames := frames + [f];
      TrackStep(purse, first, n, left, i);
      i := i + 1;
    }
    TrackEnds(purse, first, n, mem.Purse(pd));
    ok := true;
  }

  lemma NoRegion(phys: Phys, used: set<nat>, pd: nat, first: nat)
    requires first <= FRAMES
    ensures Region(phys, used, pd, first, []) && Filled(phys, [], 0, [])
  {
  }

  lemma StepMeans(phys0: Phys, used0: set<nat>, pd: nat, phys: Phys, used: set<nat>, first: nat, n: nat)
    requires SegStep(phys0, used0, pd, phys, used, first, n)
    ensures Usable(phys, used, pd) && used0 <= used
  {
  }

  /** A page that was asked for and not completed: at most its own translation changed. */
  ghost predicate PageTried(phys: Phys, used: set<nat>, pd: nat, phys': Phys, used': set<nat>, page: nat) {
    var tried := Usable(phys', used', pd) && used <= used' && DataKept(phys, used, phys')
      && forall q: nat | q < FRAMES && q != page :: Translate(phys', pd, q) == Translate(phys, pd, q);
    tried
  }

  lemma StepMore(phys0: Phys, used0: set<nat>, pd: nat, phys: Phys, used: set<nat>, phys': Phys, used': set<nat>,
      first: nat, n: nat, page: nat)
    requires SegStep(phys0, used0, pd, phys, used, first, n) && PageTried(phys, used, pd, phys', used', page)
        && first <= page < first + n
    ensures SegStep(phys0, used0, pd, phys', used', first, n)
  {
    hide Usable, Translate;
  }

  lemma NotTried(phys: Phys, used: set<nat>, pd: nat, used': set<nat>, page: nat)
    requires Usable(phys, used, pd) && used <= used'
    ensures PageTried(phys, used, pd, phys, used', page)
  {
    hide Usable;
    UsableMore(phys, used, pd, used');
  }

  /** Mapped, but not yet cleared. */
  lemma MappedOnly(phys: Phys, used: set<nat>, pd: nat, page: nat, f: FrameNo, pt: FrameNo)
    requires Usable(phys, used, pd) && FreshFrames(phys, used, pd, page, f, pt) && Space(phys, pd)
        && PtOk(phys, pd, page, pt)
    ensures PageTried(phys, used, pd, MapIn(phys, pd, page, f, USER_RW, pt), Used1(phys, used, pd, page, f, pt), page)
  {
    hide MapIn, Space, UserClosed, Translate, At, Low;
    var phys' := MapIn(phys, pd, page, f, USER_RW, pt);
    MapKeepsSpace(phys, pd, page, f, USER_RW, pt);
    MapKeepsClosed(phys, pd, page, f, USER_RW, pt);
    AddBacked(phys, used, pd, page, f, pt);
    forall q: nat | q < FRAMES && q != page ensures Translate(phys', pd, q) == Translate(phys, pd, q) {
      MapOthersKept(phys, pd, page, f, USER_RW, pt, q);
    }
    MapDataKept(phys, used, pd, page, f, pt);
    MapLow(phys, used, pd, page, f, pt);
    MapTranslates(phys, pd, page, f, USER_RW, pt);
  }

  lemma MapDataKept(phys: Phys, used: set<nat>, pd: nat, page: nat, f: FrameNo, pt: FrameNo)
    requires Usable(phys, used, pd) && FreshFrames(phys, used, pd, page, f, pt) && Space(phys, pd)
        && PtOk(phys, pd, page, pt)
    ensures DataKept(phys, used, MapIn(phys, pd, page, f, USER_RW, pt))
  {
    var t := TableFor(phys, pd, page, pt);
    assert At(phys, pd, page / ENTRIES).Present() ==> TableAt(phys, t);
    forall g: nat | g < FRAMES && g in used && phys[g].Data?
        ensures MapIn(phys, pd, page, f, USER_RW, pt)[g] == phys[g] {
      assert g != pd && g != t;
    }
  }

  /** What a page and, where needed, its table cost. */
  lemma PagePaid(total: nat, phys: Phys, used: set<nat>, pd: nat, page: nat, f: FrameNo, pt: FrameNo)
    requires Usable(phys, used, pd) && FreshFrames(phys, used, pd, page, f, pt) && f < total
        && (At(phys, pd, page / ENTRIES).Present() || pt < total)
    ensures Space(phys, pd) && PtOk(phys, pd, page, pt)
    ensures var b, b' := Funds(total, used, phys, pd),
                Funds(total, Used1(phys, used, pd, page, f, pt), AddPage(phys, pd, page, f, pt), pd);
            Affords(b, page, 1) && b' == Spent(b, page, 1)
  {
    hide MapIn, Usable, Space, FreeFrames, Cost, SlotsOf, At;
    FreshPt(phys, used, pd, page, f, pt);
    var phys1 := MapIn(phys, pd, page, f, USER_RW, pt);
    TablesMapped(phys, pd, page, f, USER_RW, pt);
    MapKeepsSpace(phys, pd, page, f, USER_RW, pt);
    FilledTables(phys1, pd, f, Zeros(4096));
    OneCost(Funds(total, used, phys, pd), page);
    OneFewer(total, used, f);
    if !At(phys, pd, page / ENTRIES).Present() { OneFewer(total, used + {f as nat}, pt); }
    assert used + {f as nat} + {} == used + {f as nat};
  }

  lemma FilledTables(phys: Phys, pd: nat, f: FrameNo, bytes: Bytes4K)
    requires Space(phys, pd) && Unused(phys, pd, f)
    ensures Tables(phys[f := Data(bytes)], pd) == Tables(phys, pd)
  {
    TablesKept(phys, pd, phys[f := Data(bytes)]);
  }

  lemma TooDear(total: nat, phys: Phys, used: set<nat>, pd: nat, page: nat, f: FrameNo)
    requires page < FRAMES
    requires |FreeFrames(total, used)| == 0 || (f < total && f !in used && |FreeFrames(total, used + {f as nat})| == 0
        && !At(phys, pd, page / ENTRIES).Present())
    ensures !Affords(Funds(total, used, phys, pd), page, 1)
  {
    hide FreeFrames, Cost, SlotsOf;
    OneCost(Funds(total, used, phys, pd), page);
    if f < total && f !in used { OneFewer(total, used, f); }
  }

  /**
   One turn of the loop: allocate, map, clear. Returns 0 when one of the three fails; a frame that could not be
   mapped is given back by exec and not by the segment loader.
   */
  method AddFreshPage(mem: Memory, pd: nat, page: nat, tidy: bool, ghost used: set<nat>)
      returns (f: FrameNo, ghost pt: FrameNo)
    requires mem.Ready() && pd != 0 && used == mem.pmm.UsedFrames() && Usable(mem.phys, used, pd) && page < FRAMES
    modifies mem`phys, mem.pmm`count, mem.pmm.bitmap
    ensures mem.Ready()
    ensures CleanStep(mem.kernel, pd, old(mem.phys), used, mem.phys, mem.pmm.UsedFrames(), page, 1)
    ensures f == 0 ==> PageTried(old(mem.phys), used, pd, mem.phys, mem.pmm.UsedFrames(), page)
    ensures f != 0 ==>
      && FreshFrames(old(mem.phys), used, pd, page, f, pt) && Space(old(mem.phys), pd)
          && PtOk(old(mem.phys), pd, page, pt)
      && mem.phys == AddPage(old(mem.phys), pd, page, f, pt)
          && mem.pmm.UsedFrames() == Used1(old(mem.phys), used, pd, page, f, pt)
    ensures f != 0 ==> Affords(old(mem.Purse(pd)), page, 1) && mem.Purse(pd) == Spent(old(mem.Purse(pd)), page, 1)
    ensures f == 0 && mem.granted ==> !Affords(old(mem.Purse(pd)), page, 1)
  {
    hide Usable, Space, Memory.Ready, PageTried, MapIn, At, Backed, PtOk, CleanStep, Funds, Affords, Spent, FreeFrames;
    ghost var phys := mem.phys;
    f := mem.AllocFrame();
    pt := 0;
    UsableMore(phys, used, pd, mem.pmm.UsedFrames());
    NotTried(phys, used, pd, mem.pmm.UsedFrames(), page);
    CleanStays(mem.kernel, pd, phys, used, mem.pmm.UsedFrames(), page, 1);
    if f == 0 {
      TooDear(mem.pmm.total, phys, used, pd, page, f);
      return;
    }
    var ok;
    ok, pt := mem.MapPage(pd, page * PAGE, f * PAGE, USER_RW);
    if !ok {
      TooDear(mem.pmm.total, phys, used, pd, page, f);
      if tidy {
        LowData(phys, used, pd);
        GiveBack(mem, f, used);
      }
      NotTried(phys, used, pd, mem.pmm.UsedFrames(), page);
      CleanStays(mem.kernel, pd, phys, used, mem.pmm.UsedFrames(), page, 1);
      f := 0;
      return;
    }
    MappedOnly(phys, used, pd, page, f, pt);
    MapCleanStep(mem.kernel, pd, phys, used, page, f, pt);
    AddCleanStep(mem.kernel, pd, phys, used, page, f, pt);
    PagePaid(mem.pmm.total, phys, used, pd, page, f, pt);
    var mapped := mem.Grant();
    if !mapped {
      f := 0;
      return;
    }
    mem.phys := mem.phys[f := Data(Zeros(4096))];
  }

  /** pmm_free_frame on a frame just taken. */
  method GiveBack(mem: Memory, f: FrameNo, ghost used: set<nat>)
    requires mem.Ready() && f !in used && mem.pmm.UsedFrames() == used + {f as nat} && 0 in used
    modifies mem.pmm`count, mem.pmm.bitmap
    ensures mem.Ready() && mem.pmm.UsedFrames() == used
  {
    assert f as nat in mem.pmm.UsedFrames();
    mem.FreeFrame(f);
    assert used + {f as nat} - {f as nat} == used;
  }

  lemma StepTables(phys0: Phys, used0: set<nat>, pd: nat, phys: Phys, used: set<nat>, first: nat, n: nat, f: FrameNo,
      bytes: Bytes4K)
    requires SegStep(phys0, used0, pd, phys, used, first, n) && Unused(phys, pd, f)
    ensures Tables(phys[f := Data(bytes)], pd) == Tables(phys, pd)
  {
    hide Tables, Unused, Translate;
    FilledTables(phys, pd, f, bytes);
  }

  /** How many bytes n pages take from offset off on. */
  function Fits(data: seq<byte>, n: nat, off: nat): nat { if off <= n * PAGE then Min(|data|, n * PAGE - off) else 0 }

  /** The copy loop of load_segment. */
  method CopyIn(mem: Memory, pd: nat, frames: seq<nat>, off: nat, data: seq<byte>,
                ghost phys0: Phys, ghost used0: set<nat>, ghost first: nat, ghost n: nat) returns (ok: bool)
    requires mem.Ready() && off < PAGE && 0 < |frames| == n && used0 <= mem.pmm.UsedFrames()
    requires SegStep(phys0, used0, pd, mem.phys, mem.pmm.UsedFrames(), first, n) && AllNew(frames, used0)
    requires CleanStep(mem.kernel, pd, phys0, used0, mem.phys, mem.pmm.UsedFrames(), first, n)
    requires Region(mem.phys, mem.pmm.UsedFrames(), pd, first, frames) && Filled(mem.phys, frames, off, [])
    modifies mem`phys
    ensures SegStep(phys0, used0, pd, mem.phys, mem.pmm.UsedFrames(), first, n)
    ensures CleanStep(mem.kernel, pd, phys0, used0, mem.phys, mem.pmm.UsedFrames(), first, n)
    ensures ok ==>
          Region(mem.phys, mem.pmm.UsedFrames(), pd, first, frames)
          && Filled(mem.phys, frames, off, data[..Fits(data, n, off)])
    ensures mem.Purse(pd) == old(mem.Purse(pd)) && (mem.granted ==> ok)
  {
    hide SegStep, Filled, Unused, Translate, CleanStep, Tables;
    var copied, p: nat := 0, 0;
    assert data[..0] == [];
    while p < |frames| && copied < |data|
      invariant 0 <= copied <= |data| && p <= |frames| && (copied < |data| ==> copied == CopiedBefore(p, off))
      invariant copied <= CopiedBefore(p, off)
      invariant SegStep(phys0, used0, pd, mem.phys, mem.pmm.UsedFrames(), first, n)
      invariant CleanStep(mem.kernel, pd, phys0, used0, mem.phys, mem.pmm.UsedFrames(), first, n)
      invariant Region(mem.phys, mem.pmm.UsedFrames(), pd, first, frames)
          && Filled(mem.phys, frames, off, data[..copied])
      invariant mem.Purse(pd) == old(mem.Purse(pd))
      decreases |frames| - p
    {
      var mapped := mem.Grant();
      if !mapped { return false; }
      assert PageIs(mem.phys, mem.pmm.UsedFrames(), pd, first + p, frames[p]);
      var dst := PageOffset(p, off);
      var chunk := Min(|data| - copied, PAGE - dst);
      var bytes: Bytes4K := Splice(mem.phys[frames[p]].bytes, dst, data[copied..copied + chunk]);
      CopyFills(mem.phys, frames, off, data, p, chunk, bytes);
      WriteRegion(phys0, used0, pd, mem.phys, mem.pmm.UsedFrames(), first, n, frames, p, bytes);
      WriteStep(mem.kernel, pd, phys0, used0, mem.phys, mem.pmm.UsedFrames(), first, n, frames[p], bytes);
      StepTables(phys0, used0, pd, mem.phys, mem.pmm.UsedFrames(), first, n, frames[p], bytes);
      mem.phys := mem.phys[frames[p] := Data(bytes)];
      copied := copied + chunk;
      p := p + 1;
    }
    assert copied == Fits(data, n, off);
    ok := true;
  }

  /** The copy loop when no page was mapped: the table's entries are zero, so all of it goes to frame 0. */
  method CopyLow(mem: Memory, n: nat, off: nat, data: seq<byte>) returns (ok: bool)
    requires off < PAGE && mem.phys[0].Data?
    modifies mem`phys
    ensures mem.phys[0].Data? && mem.phys == old(mem.phys)[0 := mem.phys[0]] && (mem.granted ==> ok)
    ensures ok && 0 < n && |data| <= PAGE - off ==> mem.phys[0].bytes == Splice(old(mem.phys)[0].bytes, off, data)
  {
    var copied, p: nat := 0, 0;
    assert data == [] ==> Splice(mem.phys[0].bytes, off, data) == mem.phys[0].bytes;
    while p < n && copied < |data|
      invariant 0 <= copied <= |data| && p <= n && mem.phys[0].Data? && mem.phys == old(mem.phys)[0 := mem.phys[0]]
      invariant p == 0 ==> copied == 0 && mem.phys == old(mem.phys)
      invariant 0 < p && |data| <= PAGE - off ==>
            copied == |data| && mem.phys[0].bytes == Splice(old(mem.phys)[0].bytes, off, data)
      decreases n - p
    {
      var mapped := mem.Grant();
      if !mapped { return false; }
      var dst := PageOffset(p, off);
      var chunk := Min(|data| - copied, PAGE - dst);
      var bytes: Bytes4K := Splice(mem.phys[0].bytes, dst, data[copied..copied + chunk]);
      assert copied == 0 && chunk == |data| ==> data[copied..copied + chunk] == data;
      mem.phys := mem.phys[0 := Data(bytes)];
      copied := copied + chunk;
      p := p + 1;
    }
    ok := true;
  }

  /** Zeros everywhere, at whatever offset the data will start. */
  lemma FilledAnywhere(phys: Phys, frames: seq<nat>, off: nat)
    requires Filled(phys, frames, 0, [])
    ensures Filled(phys, frames, off, [])
  {
    forall k | 0 <= k < |frames| ensures FrameFilled(phys, frames[k], k, off, []) {
      assert FrameFilled(phys, frames[k], k, 0, []);
    }
  }

  /** The address of the i-th byte is on a user page whose frame was free before. */
  ghost predicate OnFreshPage(used0: set<nat>, phys: Phys, used: set<nat>, pd: nat, ph: Phdr, i: nat) {
    var m := Translate(phys, pd, Wrap32(ph.vaddr + i) / PAGE);
    m.Mapped? && m.user && m.frame in used && m.frame !in used0
  }

  /** The whole segment is on fresh pages. */
  ghost predicate Fresh(used0: set<nat>, phys: Phys, used: set<nat>, pd: nat, ph: Phdr) {
    forall i: nat | i < ph.memsz :: OnFreshPage(used0, phys, used, pd, ph, i)
  }

  lemma RegionIsFresh(used0: set<nat>, phys: Phys, used: set<nat>, pd: nat, ph: Phdr, frames: seq<nat>)
    requires EndFits(ph) && Region(phys, used, pd, FirstPage(ph), frames) && |frames| == PageCount(ph)
        && AllNew(frames, used0)
    ensures Fresh(used0, phys, used, pd, ph)
  {
    hide Translate, Unused, PageEnd, PageCount;
    forall i: nat | i < ph.memsz ensures OnFreshPage(used0, phys, used, pd, ph, i) {
      var k := (ph.vaddr % PAGE + i) / PAGE;
      SplitAddress(ph.vaddr, i);
      PageInside(ph, i);
      assert PageIs(phys, used, pd, FirstPage(ph) + k, frames[k]);
    }
  }

  /** A page the loop did not walk is mapped as before, to frames that were in use, or not at all. */
  lemma WrappedNotFresh(phys0: Phys, used0: set<nat>, pd: nat, phys: Phys, used: set<nat>, ph: Phdr)
    requires !EndFits(ph) && 0 < ph.memsz && Usable(phys0, used0, pd)
        && Moved(phys0, used0, pd, phys, used, FirstPage(ph), Span(ph))
    ensures !Fresh(used0, phys, used, pd, ph)
  {
    hide Translate, Space, UserClosed, Low, PageEnd, PageCount, Span;
    SpanWrapped(ph);
    var i := if Span(ph) == 0 then 0 else PAGE - ph.vaddr % PAGE;
    var q := Wrap32(ph.vaddr + i) / PAGE;
    assert q == FirstPage(ph) + Span(ph) by { NextPage(ph.vaddr); }
    assert Translate(phys, pd, q) == Translate(phys0, pd, q);
    assert !OnFreshPage(used0, phys, used, pd, ph, i);
  }

  lemma NextPage(v: nat)
    requires v < U32
    ensures v / PAGE + 1 < FRAMES ==> Wrap32(v + PAGE - v % PAGE) / PAGE == v / PAGE + 1
    ensures Wrap32(v) / PAGE == v / PAGE < FRAMES
  {
  }

  /** What any segment may change: its own pages, frames that were free, and frame 0. */
  ghost predicate Moved(phys: Phys, used: set<nat>, pd: nat, phys': Phys, used': set<nat>, first: nat, n: nat) {
    var step := Usable(phys', used', pd) && used <= used' && DataKept(phys, used - {0}, phys')
      && forall q: nat | q < FRAMES && !(first <= q < first + n) :: Translate(phys', pd, q) == Translate(phys, pd, q);
    step
  }

  lemma StepMoves(phys: Phys, used: set<nat>, pd: nat, phys': Phys, used': set<nat>, first: nat, n: nat)
    requires SegStep(phys, used, pd, phys', used', first, n)
    ensures Moved(phys, used, pd, phys', used', first, n)
  {
    hide Usable, Translate;
  }

  /** A write to frame 0 changes no mapping and leaves the space usable and clean. */
  lemma LowWritten(kernel: nat, pd: nat, phys: Phys, used: set<nat>, first: nat, phys': Phys)
    requires Usable(phys, used, pd) && phys'[0].Data? && phys' == phys[0 := phys'[0]]
    ensures Moved(phys, used, pd, phys', used, first, 0) && CleanStep(kernel, pd, phys, used, phys', used, first, 0)
        && Tables(phys', pd) == Tables(phys, pd)
  {
    hide Translate, Space, UserClosed, Clean, Unused, IsKernel, IsOwned, OnKernelSlot, Tables;
    FilledTables(phys, pd, 0, phys'[0].bytes);
    DataWritten(phys, pd, 0, phys'[0].bytes);
    WriteLow(phys, used, pd, 0, phys'[0].bytes);
    if Clean(phys, used, kernel, pd) {
      CleanSpaces(phys, used, kernel, pd);
      WriteClean(kernel, pd, phys, used, 0, phys'[0].bytes);
    }
  }

  /** A segment that can be loaded: its sizes in order, its pages affordable, its bytes there. */
  predicate SegmentOk(b: Budget, src: Source, ph: Phdr) {
    || ph.memsz == 0
    || (&& ph.filesz <= ph.memsz && Affords(b, FirstPage(ph), Span(ph))
        && (ph.filesz == 0 || Readable(src, ph.offset, ph.filesz)))
  }

  /** The budget once its pages are paid for. */
  function AfterSegment(b: Budget, ph: Phdr): Budget {
    if Affords(b, FirstPage(ph), SpanOf(ph)) then Spent(b, FirstPage(ph), SpanOf(ph)) else b
  }

  lemma FreeSegment(b: Budget, ph: Phdr)
    requires SpanOf(ph) == 0
    ensures AfterSegment(b, ph) == b && Affords(b, FirstPage(ph), 0)
  {
    NoCost(b, FirstPage(ph));
  }

  /**
   load_segment and load_segment_from_memory. It succeeds only on a segment that can be loaded, and on every one if
   nothing but frames can be refused. A segment whose rounded end does not wrap is loaded in full, and
   only then is all of it on fresh pages. A wrapping one without a page of its own is copied to frame 0.
   */
  method LoadSegment(mem: Memory, pd: nat, src: Source, ph: Phdr) returns (ok: bool)
    requires mem.Ready() && pd != 0 && Usable(mem.phys, mem.pmm.UsedFrames(), pd)
    modifies mem`phys, mem.pmm`count, mem.pmm.bitmap
    ensures mem.Ready()
    ensures Moved(old(mem.phys), old(mem.pmm.UsedFrames()), pd, mem.phys, mem.pmm.UsedFrames(), FirstPage(ph),
        SpanOf(ph))
    ensures CleanStep(mem.kernel, pd, old(mem.phys), old(mem.pmm.UsedFrames()), mem.phys, mem.pmm.UsedFrames(),
        FirstPage(ph), SpanOf(ph))
    ensures ph.memsz == 0 || 0 < Span(ph) ==>
      SegStep(old(mem.phys), old(mem.pmm.UsedFrames()), pd, mem.phys, mem.pmm.UsedFrames(), FirstPage(ph), SpanOf(ph))
    ensures 0 < ph.memsz && Span(ph) == 0 ==>
          mem.phys == old(mem.phys)[0 := mem.phys[0]] && mem.pmm.UsedFrames() == old(mem.pmm.UsedFrames())
    ensures ok && EndFits(ph) && ReadExact(src, ph.offset, ph.filesz) ==>
          Loaded(mem.phys, mem.pmm.UsedFrames(), pd, src.bytes, ph)
    ensures ok && 0 < ph.memsz ==>
          (Fresh(old(mem.pmm.UsedFrames()), mem.phys, mem.pmm.UsedFrames(), pd, ph) <==> EndFits(ph))
    ensures (ok && 0 < ph.memsz && Span(ph) == 0 < PageCount(ph) && 0 < ph.filesz <= PAGE - ph.vaddr % PAGE
             && ReadExact(src, ph.offset, ph.filesz)) ==>
      && ph.offset + ph.filesz <= |src.bytes| && old(mem.phys)[0].Data? && mem.phys[0].Data?
      && mem.phys[0].bytes == Splice(old(mem.phys)[0].bytes, ph.vaddr % PAGE,
          src.bytes[ph.offset..ph.offset + ph.filesz])
    ensures ok ==> SegmentOk(old(mem.Purse(pd)), src, ph) && mem.Purse(pd) == AfterSegment(old(mem.Purse(pd)), ph)
    ensures !ok && mem.granted ==> !SegmentOk(old(mem.Purse(pd)), src, ph)
  {
    hide SegStep, Moved, CleanStep, Usable, Memory.Ready, PageCount, PageEnd, Span, Loaded, Fresh, Funds, Affords,
        Spent, Readable, AfterSegment;
    if SpanOf(ph) == 0 { FreeSegment(mem.Purse(pd), ph); }
    ghost var phys0, used0 := mem.phys, mem.pmm.UsedFrames();
    NoStep(phys0, used0, pd, FirstPage(ph), SpanOf(ph));
    StepMoves(phys0, used0, pd, phys0, used0, FirstPage(ph), SpanOf(ph));
    CleanStays(mem.kernel, pd, phys0, used0, used0, FirstPage(ph), SpanOf(ph));
    if ph.memsz == 0 {
      NothingToLoad(phys0, used0, pd, src.bytes, ph);
      return true;
    }
    if ph.filesz > ph.memsz { return false; }
    var table := mem.Grant();
    if !table { return false; }
    if Span(ph) == 0 {
      ok := LoadLow(mem, pd, src, ph);
    } else {
      ok := LoadPages(mem, pd, src, ph, phys0, used0);
    }
  }

  lemma NothingToLoad(phys: Phys, used: set<nat>, pd: nat, file: seq<byte>, ph: Phdr)
    requires ph.memsz == 0
    ensures Loaded(phys, used, pd, file, ph)
  {
  }

  /** The rest of load_segment when the first loop walks no page. */
  method LoadLow(mem: Memory, pd: nat, src: Source, ph: Phdr) returns (ok: bool)
    requires pd != 0 && Usable(mem.phys, mem.pmm.UsedFrames(), pd) && 0 < ph.memsz && Span(ph) == 0
    modifies mem`phys
    ensures mem.phys == old(mem.phys)[0 := mem.phys[0]] && !EndFits(ph)
    ensures Moved(old(mem.phys), mem.pmm.UsedFrames(), pd, mem.phys, mem.pmm.UsedFrames(), FirstPage(ph), 0)
    ensures CleanStep(mem.kernel, pd, old(mem.phys), mem.pmm.UsedFrames(), mem.phys, mem.pmm.UsedFrames(),
        FirstPage(ph), 0)
    ensures !Fresh(mem.pmm.UsedFrames(), mem.phys, mem.pmm.UsedFrames(), pd, ph)
    ensures (ok && 0 < PageCount(ph) && 0 < ph.filesz <= PAGE - ph.vaddr % PAGE
             && ReadExact(src, ph.offset, ph.filesz)) ==>
      && ph.offset + ph.filesz <= |src.bytes| && old(mem.phys)[0].Data? && mem.phys[0].Data?
      && mem.phys[0].bytes == Splice(old(mem.phys)[0].bytes, ph.vaddr % PAGE,
          src.bytes[ph.offset..ph.offset + ph.filesz])
    ensures mem.Purse(pd) == old(mem.Purse(pd)) && (ok ==> ph.filesz == 0 || Readable(src, ph.offset, ph.filesz))
    ensures !ok && mem.granted ==> ph.filesz != 0 && !Readable(src, ph.offset, ph.filesz)
  {
    hide Moved, CleanStep, Usable, PageCount, PageEnd, Span, Fresh, Tables, Readable;
    ghost var phys0, used0 := mem.phys, mem.pmm.UsedFrames();
    if EndFits(ph) { SpanIsCount(ph); }
    LowData(phys0, used0, pd);
    assert phys0 == phys0[0 := phys0[0]];
    LowWritten(mem.kernel, pd, phys0, used0, FirstPage(ph), phys0);
    WrappedNotFresh(phys0, used0, pd, phys0, used0, ph);
    ok := true;
    if ph.filesz > 0 {
      var buffer := mem.Grant();
      if !buffer { return false; }
      var data;
      ok, data := ReadFrom(mem, src, ph.offset, ph.filesz);
      if !ok { return; }
      ok := CopyLow(mem, PageCount(ph), ph.vaddr % PAGE, data);
      LowWritten(mem.kernel, pd, phys0, used0, FirstPage(ph), mem.phys);
      WrappedNotFresh(phys0, used0, pd, mem.phys, used0, ph);
    }
  }

  lemma LowData(phys: Phys, used: set<nat>, pd: nat)
    requires Usable(phys, used, pd)
    ensures phys[0].Data? && 0 in used
  {
  }

  /** The rest of load_segment when there are pages to walk. */
  method LoadPages(mem: Memory, pd: nat, src: Source, ph: Phdr, ghost phys0: Phys, ghost used0: set<nat>)
      returns (ok: bool)
    requires mem.Ready() && pd != 0 && phys0 == mem.phys && used0 == mem.pmm.UsedFrames() && Usable(phys0, used0, pd)
    requires ph.filesz <= ph.memsz && 0 < Span(ph) && 0 < ph.memsz
    modifies mem`phys, mem.pmm`count, mem.pmm.bitmap
    ensures mem.Ready() && SegStep(phys0, used0, pd, mem.phys, mem.pmm.UsedFrames(), FirstPage(ph), Span(ph))
    ensures Moved(phys0, used0, pd, mem.phys, mem.pmm.UsedFrames(), FirstPage(ph), Span(ph))
    ensures CleanStep(mem.kernel, pd, phys0, used0, mem.phys, mem.pmm.UsedFrames(), FirstPage(ph), Span(ph))
    ensures ok && EndFits(ph) && ReadExact(src, ph.offset, ph.filesz) ==>
          Loaded(mem.phys, mem.pmm.UsedFrames(), pd, src.bytes, ph)
    ensures ok ==> (Fresh(used0, mem.phys, mem.pmm.UsedFrames(), pd, ph) <==> EndFits(ph))
    ensures ok ==> SegmentOk(old(mem.Purse(pd)), src, ph) && mem.Purse(pd) == AfterSegment(old(mem.Purse(pd)), ph)
    ensures !ok && mem.granted ==> !SegmentOk(old(mem.Purse(pd)), src, ph)
  {
    hide SegStep, Moved, CleanStep, Region, Filled, Usable, Memory.Ready, PageCount, PageEnd, Span, Fresh, Loaded,
        Funds, Affords, Spent, Readable;
    SpanFits(ph);
    LowData(phys0, used0, pd);
    var frames;
    ok, frames := AllocatePages(mem, pd, FirstPage(ph), Span(ph), false, used0);
    StepMoves(phys0, used0, pd, mem.phys, mem.pmm.UsedFrames(), FirstPage(ph), Span(ph));
    StepMeans(phys0, used0, pd, mem.phys, mem.pmm.UsedFrames(), FirstPage(ph), Span(ph));
    if !ok { return; }
    FilledAnywhere(mem.phys, frames, ph.vaddr % PAGE);
    var data := [];
    if ph.filesz > 0 {
      var buffer := mem.Grant();
      if !buffer { return false; }
      ok, data := ReadFrom(mem, src, ph.offset, ph.filesz);
      if !ok { return; }
      ok := CopyIn(mem, pd, frames, ph.vaddr % PAGE, data, phys0, used0, FirstPage(ph), Span(ph));
      StepMoves(phys0, used0, pd, mem.phys, mem.pmm.UsedFrames(), FirstPage(ph), Span(ph));
      if !ok { return; }
    }
    if EndFits(ph) {
      SpanIsCount(ph);
      SegmentRoom(ph);
      assert data[..Fits(data, Span(ph), ph.vaddr % PAGE)] == data;
      RegionIsFresh(used0, mem.phys, mem.pmm.UsedFrames(), pd, ph, frames);
      if ReadExact(src, ph.offset, ph.filesz) { FilledIsLoaded(mem.phys, mem.pmm.UsedFrames(), pd, src.bytes, ph,
          frames, data); }
    } else {
      WrappedNotFresh(phys0, used0, pd, mem.phys, mem.pmm.UsedFrames(), ph);
    }
  }

  lemma SegmentRoom(ph: Phdr)
    requires EndFits(ph) && 0 < ph.memsz && ph.filesz <= ph.memsz
    ensures ph.vaddr % PAGE + ph.filesz <= PageCount(ph) * PAGE
  {
    PageSpan(ph);
  }
}
