/** malloc, free, calloc, realloc and the aligned variants, over raw memory. */
module Heap {
  import opened Machine
  import opened HeapModel
  import opened HeapStep

  /** request_space's page count, in u32 arithmetic. */
  function PagesFor(size: u32): u32 {
    Wrap32(Wrap32(size + HEADER) + PAGE - 1) / PAGE
  }

  /** The pages hold header and payload exactly when the computation does not wrap. */
  lemma PagesExact(size: u32)
    ensures NoWrap(size + HEADER, PAGE) <==> size + HEADER <= PagesFor(size) * PAGE
    ensures NoWrap(size + HEADER, PAGE) ==> PagesFor(size) * PAGE < size + HEADER + PAGE
  {
  }

  /** The first chunk a request can reuse. */
  ghost predicate FirstFit(cs: seq<Chunk>, size: nat, k: nat) {
    k < |cs| && Fits(cs[k], size) && forall i :: 0 <= i < k ==> !Fits(cs[i], size)
  }

  predicate Fits(c: Chunk, size: nat) { c.free && c.size >= size }

  /** Some chunk can be reused for a request. */
  ghost predicate Reusable(cs: seq<Chunk>, size: nat) { exists k :: 0 <= k < |cs| && Fits(cs[k], size) }

  /** A request can be met: by a free chunk, or by new pages below the heap's top. */
  ghost predicate Room(cs: seq<Chunk>, end: nat, top: nat, size: u32) {
    Reusable(cs, size) || end + PagesFor(size) * PAGE <= top
  }

  /** What becomes of a request: it is met only if it can be, and always by a chunk there is or where frames are
      granted. */
  ghost predicate Served(cs: seq<Chunk>, end: nat, top: nat, granted: bool, size: u32, p: nat) {
    && (p != 0 ==> 0 < size && Room(cs, end, top, size))
    && (0 < size && (Reusable(cs, size) || (granted && Room(cs, end, top, size))) ==> p != 0)
  }

  lemma ServedAs(cs: seq<Chunk>, end: nat, top: nat, granted: bool, size: u32, p: nat)
    requires Served(cs, end, top, granted, size, p) && p != 0
    ensures forall q: nat :: q != 0 ==> Served(cs, end, top, granted, size, q)
  {
    hide Room, Reusable;
  }

  lemma FreeAt(cs: seq<Chunk>, k: nat, size: nat)
    requires k < |cs| && Fits(cs[k], size)
    ensures Reusable(cs, size)
  {
  }

  lemma MorePages(a: nat, b: nat)
    requires a <= b
    ensures a * PAGE <= b * PAGE
  {
  }

  /** The heap's whole invariant. */
  ghost predicate Sound(mem: seq<byte>, cs: seq<Chunk>, base: nat, start: nat, end: nat) {
    var sound := 0 < start <= end <= |mem| && |mem| + PAGE <= U32 && (end - start) % PAGE == 0
      && Ordered(cs, start, end) && Linked(mem, cs) && Coalesced(cs) && base == if cs == [] then 0 else cs[0].addr;
    sound
  }

  lemma SoundMeans(mem: seq<byte>, cs: seq<Chunk>, base: nat, start: nat, end: nat)
    requires Sound(mem, cs, base, start, end)
    ensures 0 < start <= end <= |mem| && |mem| + PAGE <= U32 && (end - start) % PAGE == 0
    ensures Ordered(cs, start, end) && Linked(mem, cs) && Coalesced(cs) && base == if cs == [] then 0 else cs[0].addr
  {
  }

  /** Walking the list: cur is the i-th chunk, or 0 behind the last. */
  ghost predicate AtChunk(cs: seq<Chunk>, i: nat, cur: nat) {
    i <= |cs| && cur == if i < |cs| then cs[i].addr else 0
  }

  /** What the header of the current chunk says. */
  lemma ReadChunk(mem: seq<byte>, cs: seq<Chunk>, base: nat, start: nat, end: nat, i: nat, cur: nat)
    requires Sound(mem, cs, base, start, end) && AtChunk(cs, i, cur) && cur != 0
    ensures i < |cs| && cur == cs[i].addr && cs[i].End() <= end <= |mem|
    ensures var h := Load(mem, cur);
            && h.size == cs[i].size && (h.free != 0 <==> cs[i].free) && AtChunk(cs, i + 1, h.next)
            && h.prev == PrevOf(cs, i) && (h.prev == 0 <==> i == 0) && (h.next == 0 <==> i + 1 == |cs|)
  {
    hide Load;
    assert Encoded(mem, cs, i);
  }

  lemma AtStart(mem: seq<byte>, cs: seq<Chunk>, base: nat, start: nat, end: nat)
    requires Sound(mem, cs, base, start, end)
    ensures AtChunk(cs, 0, base) && (base == 0 <==> cs == [])
  {
  }

  lemma NoMoreFree(cs: seq<Chunk>, start: nat, end: nat, i: nat)
    requires Ordered(cs, start, end) && 0 < start && AtChunk(cs, i, 0)
    ensures i == |cs|
  {
  }

  /** Taking a free chunk into use. */
  lemma ReuseStep(mem: seq<byte>, cs: seq<Chunk>, base: nat, start: nat, end: nat, k: nat)
    requires Sound(mem, cs, base, start, end) && k < |cs| && cs[k].free
    ensures cs[k].End() <= |mem|
    ensures var mem', cs' := Store32(mem, cs[k].addr + 4, 0), cs[k := cs[k].(free := false)];
            && Sound(mem', cs', base, start, end)
                && Live(mem', cs') == Live(mem, cs)[cs[k].Ptr() := Payload(mem, cs[k])]
            && cs[k].Ptr() !in Live(mem, cs)
  {
    hide Load, Store32, Live, Linked;
    var mem', cs' := Store32(mem, cs[k].addr + 4, 0), cs[k := cs[k].(free := false)];
    FlagStep(mem, cs, start, end, k, 0, mem', cs');
    FlagLive(mem, cs, start, end, k, 0, mem', cs');
    PointerIs(mem, cs, start, end, k);
  }

  /** Between the flag of a freed chunk and the last coalescing step, only pairs around it may both be free. */
  ghost predicate AlmostSound(mem: seq<byte>, cs: seq<Chunk>, base: nat, start: nat, end: nat, k: nat) {
    var almost := 0 < start <= end <= |mem| && |mem| + PAGE <= U32 && (end - start) % PAGE == 0
      && Ordered(cs, start, end) && Linked(mem, cs) && base == (if cs == [] then 0 else cs[0].addr)
      && k < |cs| && cs[k].free
      && forall i, j :: 0 <= i && j == i + 1 < |cs| && i != k && j != k ==> !(cs[i].free && cs[j].free);
    almost
  }

  lemma ReleaseStep(mem: seq<byte>, cs: seq<Chunk>, base: nat, start: nat, end: nat, k: nat)
    requires Sound(mem, cs, base, start, end) && k < |cs|
    ensures cs[k].End() <= |mem|
    ensures var mem', cs' := Store32(mem, cs[k].addr + 4, 1), cs[k := cs[k].(free := true)];
            && AlmostSound(mem', cs', base, start, end, k) && Live(mem', cs') == Live(mem, cs) - {cs[k].Ptr()}
            && forall i, j :: 0 <= i && j == i + 1 < |cs| && i != k && j != k ==> !(cs'[i].free && cs'[j].free)
  {
    hide Load, Store32, Live, Linked;
    var mem', cs' := Store32(mem, cs[k].addr + 4, 1), cs[k := cs[k].(free := true)];
    FlagStep(mem, cs, start, end, k, 1, mem', cs');
    FlagLive(mem, cs, start, end, k, 1, mem', cs');
  }

  /** Swallowing a free successor: afterwards the pair to the right is settled. */
  lemma SwallowNext(mem: seq<byte>, cs: seq<Chunk>, base: nat, start: nat, end: nat, k: nat)
    requires AlmostSound(mem, cs, base, start, end, k) && k + 1 < |cs| && cs[k + 1].free
    ensures var mem', cs' := Absorbed(mem, cs[k].addr, cs[k].size + HEADER + cs[k + 1].size, NextOf(cs, k + 1)),
        Merge(cs, k);
            && AlmostSound(mem', cs', base, start, end, k) && Live(mem', cs') == Live(mem, cs)
            && (k + 1 < |cs'| && (k + 2 < |cs| ==> !cs[k + 2].free) ==> !cs'[k + 1].free)
  {
    hide Load, Absorbed, Live, Linked, Merge;
    var mem', cs' := Absorbed(mem, cs[k].addr, cs[k].size + HEADER + cs[k + 1].size, NextOf(cs, k + 1)), Merge(cs, k);
    AbsorbStep(mem, cs, start, end, k, mem');
    MergeAt(cs, k, 0);
    MergeAt(cs, k, k);
    if k + 1 < |cs'| { MergeAt(cs, k, k + 1); }
    forall i, j | 0 <= i && j == i + 1 < |cs'| && i != k && j != k ensures !(cs'[i].free && cs'[j].free) {
      MergeAt(cs, k, i);
      MergeAt(cs, k, j);
    }
  }

  /** With both neighbours in use, or absent, the heap is sound again. */
  lemma Settled(mem: seq<byte>, cs: seq<Chunk>, base: nat, start: nat, end: nat, k: nat)
    requires AlmostSound(mem, cs, base, start, end, k)
    requires (k > 0 ==> !cs[k - 1].free) && (k + 1 < |cs| ==> !cs[k + 1].free)
    ensures Sound(mem, cs, base, start, end)
  {
    hide Linked, Ordered;
  }

  /** The free predecessor takes over as the chunk around which pairs may be free. */
  lemma ShiftBack(mem: seq<byte>, cs: seq<Chunk>, base: nat, start: nat, end: nat, k: nat)
    requires AlmostSound(mem, cs, base, start, end, k) && 0 < k && cs[k - 1].free && (k + 1 < |cs| ==> !cs[k + 1].free)
    ensures AlmostSound(mem, cs, base, start, end, k - 1) && (k > 1 ==> !cs[k - 2].free)
  {
    hide Linked, Ordered;
  }

  lemma AlmostMeans(mem: seq<byte>, cs: seq<Chunk>, base: nat, start: nat, end: nat, k: nat)
    requires AlmostSound(mem, cs, base, start, end, k)
    ensures k < |cs| && 0 < start <= end <= |mem| < U32 && cs[k].free && cs[k].End() <= end && start <= cs[k].addr
    ensures var h := Load(mem, cs[k].addr); h.size == cs[k].size && h.prev == PrevOf(cs, k) && h.next == NextOf(cs, k)
    ensures k + 1 < |cs| ==>
      && start <= cs[k + 1].addr && cs[k + 1].End() <= end && cs[k].End() <= cs[k + 1].addr
          && (k + 2 < |cs| ==> !(cs[k + 1].free && cs[k + 2].free))
      && var h := Load(mem, cs[k + 1].addr);
            h.size == cs[k + 1].size && (h.free != 0 <==> cs[k + 1].free) && h.next == NextOf(cs, k + 1)
    ensures k > 0 ==>
      && start <= cs[k - 1].addr && cs[k - 1].End() <= cs[k].addr
      && var h := Load(mem, cs[k - 1].addr); h.size == cs[k - 1].size && (h.free != 0 <==> cs[k - 1].free)
    ensures k + 2 < |cs| ==> start <= cs[k + 2].addr && cs[k + 2].End() <= end
  {
    hide Load;
    assert Encoded(mem, cs, k) && (k + 1 < |cs| ==> Encoded(mem, cs, k + 1)) && (k > 0 ==> Encoded(mem, cs, k - 1));
  }

  /** New pages: zeros behind the last chunk. */
  lemma GrowStep(mem: seq<byte>, cs: seq<Chunk>, base: nat, start: nat, end: nat)
    requires Sound(mem, cs, base, start, end) && end + PAGE <= |mem|
    ensures var mem' := Splice(mem, end, Zeros(PAGE));
            Sound(mem', cs, base, start, end + PAGE) && Live(mem', cs) == Live(mem, cs)
  {
    hide Load, Linked, Live;
    BeyondStep(mem, Splice(mem, end, Zeros(PAGE)), cs, start, end);
  }

  /** The new chunk's header, written into fresh pages. */
  lemma HeaderStep(mem: seq<byte>, cs: seq<Chunk>, base: nat, start: nat, end: nat, a: nat, size: u32, end0: nat)
    requires Sound(mem, cs, base, start, end) && 0 < size && end0 <= a && a + HEADER + size <= end
        && (a - start) % PAGE == 0 && start <= end0
    requires Ordered(cs, start, end0)
    ensures var m := NewHeader(mem, a, size);
            && Behind(m, cs, start, end0, Chunk(a, size, false), end) && Live(m, cs) == Live(mem, cs)
            && Sound(m, cs, base, start, end)
  {
    hide Load, Linked, Live, Ordered, NewHeader;
    NewHeaderLoad(mem, a, size);
    BeyondStep(mem, NewHeader(mem, a, size), cs, start, end0);
  }

  /** The new chunk joins the list. */
  lemma JoinStep(mem: seq<byte>, cs: seq<Chunk>, base: nat, start: nat, end0: nat, c: Chunk, end: nat)
    requires Behind(mem, cs, start, end0, c, end) && Coalesced(cs) && |mem| + PAGE <= U32 && (end - start) % PAGE == 0
    requires base == if cs == [] then c.addr else cs[0].addr
    ensures cs != [] ==> cs[|cs| - 1].End() <= |mem|
    ensures var mem' := LinkedIn(mem, cs, c);
            && Sound(mem', cs + [c], base, start, end)
            && c.Ptr() !in Live(mem, cs) && Live(mem', cs + [c]) == Live(mem, cs)[c.Ptr() := Payload(mem, c)]
  {
    hide Load, Linked, Live, Appended;
    AppendStep(mem, cs, start, end0, c, end);
  }

  /** The allocator's globals: list head, end of the mapped part, and memory up to heap_max. Where granted, no frame is
      refused, as in the identity-mapped heap of early boot. */
  class KernelHeap {
    const start: u32
    const granted: bool
    var base: u32
    var end: u32
    var mem: seq<byte>
    ghost var cs: seq<Chunk>

    ghost predicate Valid()
      reads this
    {
      Sound(mem, cs, base, start, end)
    }

    /** Live pointers and the bytes behind them. */
    ghost function Live(): map<nat, seq<byte>>
      reads this
    {
      HeapModel.Live(mem, cs)
    }

    /** heap_init. */
    constructor (start: u32, mem: seq<byte>, granted: bool)
      requires 0 < start <= |mem| && |mem| + PAGE <= U32
      ensures Valid() && Live() == map[] && cs == [] && end == start && this.start == start && this.mem == mem
          && this.granted == granted
    {
      this.start := start;
      this.granted := granted;
      base, end := 0, start;
      this.mem := mem;
      cs := [];
    }

    /** find_free_chunk: the first chunk that fits, or 0. */
    method FindFreeChunk(size: u32) returns (a: u32, ghost k: nat)
      requires Valid()
      ensures a != 0 ==> FirstFit(cs, size, k) && a == cs[k].addr
      ensures a == 0 ==> forall i :: 0 <= i < |cs| ==> !Fits(cs[i], size)
    {
      hide Sound, Load, Ordered;
      SoundMeans(mem, cs, base, start, end);
      AtStart(mem, cs, base, start, end);
      a, k := base, 0;
      while a != 0
        invariant AtChunk(cs, k, a) && forall i :: 0 <= i < k ==> !Fits(cs[i], size)
        decreases |cs| - k
      {
        ReadChunk(mem, cs, base, start, end, k, a);
        var h := Load(mem, a);
        if h.free != 0 && h.size >= size { return; }
        a, k := h.next, k + 1;
      }
      NoMoreFree(cs, start, end, k);
    }

    /** pmm_alloc_frame, as far as the heap sees it. */
    method Frame() returns (ok: bool)
      ensures granted ==> ok
    {
      ok := *;
      if granted { ok := true; }
    }

    /** expand_heap_by_pages; a page may be refused although there is room below heap_max, unless all are granted. */
    method Expand(pages: nat) returns (ok: bool)
      requires Valid()
      modifies this`end, this`mem
      ensures Valid() && Live() == old(Live()) && |mem| == |old(mem)|
      ensures old(end) <= end && (ok ==> end == old(end) + pages * PAGE)
      ensures !ok && granted ==> old(end) + pages * PAGE > |mem|
    {
      hide Sound, HeapModel.Live;
      var i := 0;
      while i < pages
        invariant 0 <= i <= pages && Valid() && Live() == old(Live()) && |mem| == |old(mem)|
        invariant end == old(end) + i * PAGE
      {
        SoundMeans(mem, cs, base, start, end);
        if end + PAGE > |mem| {
          MorePages(i + 1, pages);
          return false;
        }
        var frame := Frame();
        if !frame { return false; }
        GrowStep(mem, cs, base, start, end);
        mem := Splice(mem, end, Zeros(PAGE));
        end := end + PAGE;
        i := i + 1;
      }
      ok := true;
    }

    /** The walk to the last chunk. */
    method LastChunk() returns (a: u32)
      requires Valid() && cs != []
      ensures a == cs[|cs| - 1].addr
    {
      hide Sound, Load, Ordered;
      SoundMeans(mem, cs, base, start, end);
      AtStart(mem, cs, base, start, end);
      a := base;
      ghost var k := 0;
      ReadChunk(mem, cs, base, start, end, k, a);
      while Load(mem, a).next != 0
        invariant AtChunk(cs, k, a) && a != 0 && a + HEADER <= |mem|
        invariant (Load(mem, a).next == 0) == (k + 1 == |cs|) && AtChunk(cs, k + 1, Load(mem, a).next)
        decreases |cs| - k
      {
        a, k := Load(mem, a).next, k + 1;
        ReadChunk(mem, cs, base, start, end, k, a);
      }
    }
  
    /** request_space: a new last chunk in fresh pages, with at least the requested size, or 0. */
    method RequestSpace(size: u32) returns (a: u32)
      requires Valid() && 0 < size && NoWrap(size + HEADER, PAGE)
      modifies this
      ensures Valid()
      ensures a == 0 ==> Live() == old(Live())
      ensures |mem| == |old(mem)| && (a != 0 ==> old(end) + PagesFor(size) * PAGE <= |mem|)
      ensures a == 0 && granted ==> old(end) + PagesFor(size) * PAGE > |mem|
      ensures a != 0 ==> Allocated(old(Live()), a + HEADER, size, Live()) && (a - start) % PAGE == 0 && a + HEADER < U32
    {
      hide Sound, Load, Ordered, HeapModel.Live, NewHeader, Behind, LinkedIn, Appended, Payload;
      SoundMeans(mem, cs, base, start, end);
      ghost var e0 := end;
      var pages := PagesFor(size);
      PagesExact(size);
      var ok := Expand(pages);
      SoundMeans(mem, cs, base, start, end);
      if !ok { return 0; }
      a := end - pages * PAGE;
      ghost var c := Chunk(a, size, false);
      HeaderStep(mem, cs, base, start, end, a, size, e0);
      mem := NewHeader(mem, a, size);
      PayloadSize(mem, c);
      AtStart(mem, cs, base, start, end);
      JoinStep(mem, cs, if base == 0 then a else base, start, e0, c, end);
      LinkedInIs(mem, cs, c);
      if base == 0 {
        base := a;
      } else {
        var last := LastChunk();
        mem := Appended(mem, last, a);
      }
      cs := cs + [c];
    }

    /** malloc: the first free chunk that fits, else new pages. */
    method Malloc(size: u32) returns (p: u32)
      requires Valid() && NoWrap(size + HEADER, PAGE)
      modifies this
      ensures Valid()
      ensures p == 0 ==> Live() == old(Live())
      ensures p != 0 ==> 0 < size && Allocated(old(Live()), p, size, Live()) && (p - HEADER - start) % PAGE == 0
      ensures forall k: nat :: 0 < size && FirstFit(old(cs), size, k) ==> p == old(cs)[k].Ptr()
      ensures |mem| == |old(mem)| && Served(old(cs), old(end), |mem|, granted, size, p)
    {
      hide Sound, Load, Ordered, HeapModel.Live, Payload, Store32, PagesFor;
      if size == 0 { return 0; }
      SoundMeans(mem, cs, base, start, end);
      var a; ghost var k;
      a, k := FindFreeChunk(size);
      if a != 0 {
        ReuseStep(mem, cs, base, start, end, k);
        PayloadSize(mem, cs[k]);
        OnPage(cs, start, end, k);
        forall j: nat | FirstFit(cs, size, j) ensures j == k { assert Fits(cs[j], size) && Fits(cs[k], size); }
        mem := Store32(mem, a + 4, 0);
        cs := cs[k := cs[k].(free := false)];
        return a + HEADER;
      }
      a := RequestSpace(size);
      p := if a == 0 then 0 else a + HEADER;
    }

    /** One coalescing step: the chunk at a swallows its successor. */
    method Absorb(a: u32, ghost k: nat)
      requires AlmostSound(mem, cs, base, start, end, k) && k + 1 < |cs| && a == cs[k].addr && cs[k + 1].free
      modifies this`mem, this`cs
      ensures cs == Merge(old(cs), k) && AlmostSound(mem, cs, base, start, end, k) && Live() == old(Live())
          && |mem| == |old(mem)|
    {
      hide AlmostSound, Load, HeapModel.Live, Absorbed, Ordered, Merge;
      AlmostMeans(mem, cs, base, start, end, k);
      SwallowNext(mem, cs, base, start, end, k);
      var h := Load(mem, a);
      var n := Load(mem, h.next);
      mem := Absorbed(mem, a, h.size + HEADER + n.size, n.next);
      cs := Merge(cs, k);
    }

    /** The first coalescing step of free: a free successor is swallowed. */
    method JoinNext(a: u32, ghost k: nat)
      requires AlmostSound(mem, cs, base, start, end, k) && k < |cs| && a == cs[k].addr && cs[k].free
      modifies this`mem, this`cs
      ensures AlmostSound(mem, cs, base, start, end, k) && Live() == old(Live()) && |mem| == |old(mem)|
      ensures k < |cs| && a == cs[k].addr && cs[k].free && cs[k].size >= old(cs)[k].size
          && (k + 1 < |cs| ==> !cs[k + 1].free)
    {
      hide AlmostSound, Load, Ordered, HeapModel.Live, Merge, Payload;
      AlmostMeans(mem, cs, base, start, end, k);
      var next := Load(mem, a).next;
      if next != 0 && Load(mem, next).free != 0 {
        MergeAt(cs, k, k);
        if k + 2 < |cs| { MergeAt(cs, k, k + 1); }
        Absorb(a, k);
        AlmostMeans(mem, cs, base, start, end, k);
      }
    }

    /** The second: the chunk is swallowed by a free predecessor. */
    method JoinPrev(a: u32, ghost k: nat, ghost size: nat)
      requires AlmostSound(mem, cs, base, start, end, k) && k < |cs| && a == cs[k].addr && cs[k].free
          && cs[k].size >= size && (k + 1 < |cs| ==> !cs[k + 1].free)
      modifies this`mem, this`cs
      ensures Valid() && Live() == old(Live()) && |mem| == |old(mem)| && Reusable(cs, size)
    {
      hide Sound, AlmostSound, Load, Ordered, HeapModel.Live, Merge, Payload, Reusable;
      AlmostMeans(mem, cs, base, start, end, k);
      var prev := Load(mem, a).prev;
      if prev != 0 && Load(mem, prev).free != 0 {
        ShiftBack(mem, cs, base, start, end, k);
        MergeAt(cs, k - 1, k - 1);
        if k + 1 < |cs| { MergeAt(cs, k - 1, k); }
        if k > 1 { MergeAt(cs, k - 1, k - 2); }
        Absorb(prev, k - 1);
        FreeAt(cs, k - 1, size);
        Settled(mem, cs, base, start, end, k - 1);
      } else {
        FreeAt(cs, k, size);
        Settled(mem, cs, base, start, end, k);
      }
    }

    /** free: the pointer is no longer live, every other payload keeps its bytes, and free neighbours
        become one chunk. */
    method Free(p: u32)
      requires Valid() && (p == 0 || p in Live())
      modifies this`mem, this`cs
      ensures Valid() && Live() == old(Live()) - {p as nat} && |mem| == |old(mem)|
      ensures p != 0 ==> Reusable(cs, |old(Live())[p]|)
    {
      hide Sound, AlmostSound, Load, Ordered, HeapModel.Live, Store32, Merge, Reusable, Payload;
      SoundMeans(mem, cs, base, start, end);
      NoNull(mem, cs, start, end);
      if p == 0 { return; }
      ghost var k := LiveIndex(mem, cs, start, end, p);
      PayloadSize(mem, cs[k]);
      var a := p - HEADER;
      ReleaseStep(mem, cs, base, start, end, k);
      mem := Store32(mem, a + 4, 1);
      cs := cs[k := cs[k].(free := true)];
      JoinNext(a, k);
      JoinPrev(a, k, |old(Live())[p]|);
    }

    /** A store through a live pointer, as callers and memset and memcpy do it. */
    method Write(p: u32, o: nat, b: seq<byte>)
      requires Valid() && p in Live() && o + |b| <= |Live()[p]|
      modifies this`mem
      ensures Valid() && Live() == old(Live())[p := Splice(old(Live())[p], o, b)] && |mem| == |old(mem)|
    {
      hide Sound, HeapModel.Live;
      WriteSound(mem, cs, base, start, end, p, o, b);
      mem := Splice(mem, p + o, b);
    }

    /** calloc: zeroed, and refused when the product does not fit in 32 bits. */
    method Calloc(nmemb: u32, size: u32) returns (p: u32)
      requires Valid() && (Total(nmemb, size) < U32 ==> NoWrap(Total(nmemb, size) + HEADER, PAGE))
      modifies this
      ensures Valid()
      ensures p == 0 ==> Live() == old(Live())
      ensures p != 0 ==> Total(nmemb, size) < U32 && Allocated(old(Live()), p, Total(nmemb, size), Live())
      ensures p != 0 ==> Zeros(Total(nmemb, size)) <= Live()[p]
      ensures |mem| == |old(mem)|
      ensures if Total(nmemb, size) < U32 then Served(old(cs), old(end), |mem|, granted, Total(nmemb, size), p)
              else p == 0
    {
      hide Sound, HeapModel.Live, Total, Served;
      if nmemb == 0 || size == 0 {
        NoProduct(nmemb, size);
        NotServed(cs, end, |mem|, granted);
        return 0;
      }
      Product(nmemb, size);
      if nmemb > (U32 - 1) / size { return 0; }
      var total := Total(nmemb, size);
      p := Malloc(total);
      if p == 0 { return; }
      Write(p, 0, Zeros(total));
    }

    /** realloc: the old contents carry over; a failed growth leaves the old block as it was. */
    method Realloc(ptr: u32, size: u32) returns (p: u32)
      requires Valid() && NoWrap(size + HEADER, PAGE) && (ptr == 0 || ptr in Live())
      modifies this
      ensures Valid()
      ensures ptr == 0 ==> if p == 0 then Live() == old(Live()) else Allocated(old(Live()), p, size, Live())
      ensures ptr != 0 && size == 0 ==> p == 0 && Live() == old(Live()) - {ptr as nat}
      ensures ptr != 0 && size != 0 ==> Resized(old(Live()), ptr, size, p, Live())
      ensures |mem| == |old(mem)|
      ensures ptr == 0 || size > |old(Live())[ptr]| ==> Served(old(cs), old(end), |mem|, granted, size, p)
    {
      hide Sound, HeapModel.Live, Load, Ordered, Served;
      if ptr == 0 {
        p := Malloc(size);
        return;
      }
      if size == 0 {
        Free(ptr);
        return 0;
      }
      SoundMeans(mem, cs, base, start, end);
      var oldSize := UsableSize(ptr);
      if size <= oldSize { return ptr; }
      ghost var before := Live();
      p := Malloc(size);
      if p == 0 { return; }
      var b := Copy(ptr, oldSize);
      Write(p, 0, b);
      Free(ptr);
    }

    /** malloc_usable_size. */
    method UsableSize(p: u32) returns (n: u32)
      requires Valid() && (p == 0 || p in Live())
      ensures n == if p == 0 then 0 else |Live()[p]|
    {
      hide Sound, HeapModel.Live, Load, Ordered;
      if p == 0 { return 0; }
      SoundMeans(mem, cs, base, start, end);
      ghost var k := LiveIndex(mem, cs, start, end, p);
      PayloadSize(mem, cs[k]);
      ReadChunk(mem, cs, base, start, end, k, cs[k].addr);
      n := Load(mem, p - HEADER).size;
    }

    /** The bytes memcpy reads behind a live pointer. */
    method Copy(p: u32, n: u32) returns (b: seq<byte>)
      requires Valid() && p in Live() && n == |Live()[p]|
      ensures b == Live()[p]
    {
      hide Sound, HeapModel.Live, Ordered;
      SoundMeans(mem, cs, base, start, end);
      ghost var k := LiveIndex(mem, cs, start, end, p);
      PayloadSize(mem, cs[k]);
      b := mem[p..p + n];
    }

    /** malloc_align: a block on the boundary inside a larger one, whose address is kept in the word in front. */
    method MallocAlign(size: u32, align: u32) returns (p: u32, ghost raw: nat)
      requires Valid() && NoWrap(size + align + 3 + HEADER, PAGE)
      modifies this
      ensures Valid()
      ensures !PowerOfTwo(align) ==> p == 0
      ensures p == 0 ==> Live() == old(Live())
      ensures p != 0 ==> raw !in old(Live()) && raw in Live() && Live() == old(Live())[raw := Live()[raw]]
      ensures p != 0 ==> AlignedIn(raw, Live()[raw], p, size, align)
      ensures PowerOfTwo(align) ==> Served(old(cs), old(end), |mem|, granted, size + align + 3, p)
    {
      hide Sound, HeapModel.Live, Store32, AlignUp, Ordered, PowerOfTwo, Le32, Bytes32, AlignedIn, Served, Payload;
      p, raw := 0, 0;
      NoPower();
      if align == 0 || !PowerOfTwo(align) { return; }
      var r := Malloc(Wrap32(size + align - 1 + 4));
      if r == 0 { return; }
      ServedAs(old(cs), old(end), |mem|, granted, size + align + 3, r);
      raw := r;
      SoundMeans(mem, cs, base, start, end);
      ghost var k := LiveIndex(mem, cs, start, end, r);
      PayloadSize(mem, cs[k]);
      Placed(Live()[raw], r, size, align);
      var aligned := AlignUp(r + 4, align);
      Write(r, aligned - 4 - r, Bytes32(r));
      p := aligned;
    }

    /** free_align: frees the block whose address stands in front of the pointer. */
    method FreeAlign(p: u32) returns (r: Errno)
      requires Valid() && (p == 0 || (4 <= p <= |mem| && Le32(mem, p - 4) in Live()))
      modifies this`mem, this`cs
      ensures Valid()
      ensures if p == 0 then r == InvalidArgument && Live() == old(Live())
              else r == Success && Live() == old(Live()) - {Le32(old(mem), p - 4) as nat}
    {
      hide Sound, HeapModel.Live, Le32;
      if p == 0 { return InvalidArgument; }
      Free(Le32(mem, p - 4));
      r := Success;
    }
  }

  lemma NoProduct(n: nat, size: nat)
    requires n == 0 || size == 0
    ensures Total(n, size) == 0
  {
  }

  lemma NotServed(cs: seq<Chunk>, end: nat, top: nat, granted: bool)
    ensures Served(cs, end, top, granted, 0, 0)
  {
  }

  predicate PowerOfTwo(n: nat) { n == 1 || (n > 1 && n % 2 == 0 && PowerOfTwo(n / 2)) }

  lemma NoPower()
    ensures !PowerOfTwo(0)
  {
  }

  /** align_up for a power of two, in u32 arithmetic: masking the low bits drops the remainder. */
  function AlignUp(value: u32, align: u32): u32
    requires 0 < align
  {
    var x := Wrap32(value + align - 1);
    x - x % align
  }

  /** The least multiple at or above the value, when the sum does not wrap. */
  lemma AlignUpExact(value: u32, align: u32)
    requires 0 < align && value + align - 1 < U32
    ensures value <= AlignUp(value, align) < value + align && AlignUp(value, align) % align == 0
  {
    var x := value + align - 1;
    RemainderDropped(x, align);
  }

  /** An aligned block of the given size inside the payload of raw, with raw's address in the word before it. */
  ghost predicate AlignedIn(raw: nat, payload: seq<byte>, p: nat, size: nat, align: nat) {
    && 0 < align && p % align == 0 && raw + 4 <= p && p + size <= raw + |payload|
    && Le32(payload, p - 4 - raw) == raw
  }

  /** The aligned block and the word before it lie inside a payload that is long enough. */
  lemma Placed(payload: seq<byte>, r: u32, size: nat, align: u32)
    requires 0 < align && |payload| >= size + align + 3 && r + |payload| < U32
    ensures var a := AlignUp(r + 4, align);
            r + 4 <= a <= r + |payload| && AlignedIn(r, Splice(payload, a - 4 - r, Bytes32(r)), a, size, align)
  {
    hide AlignUp, Le32, Bytes32;
    AlignUpExact(r + 4, align);
    StoreInPayload(payload, AlignUp(r + 4, align) - 4 - r, r);
  }

  lemma StoreInPayload(payload: seq<byte>, o: nat, x: u32)
    requires o + 4 <= |payload|
    ensures Le32(Splice(payload, o, Bytes32(x)), o) == x
  {
    LoadStored(payload, o, x);
  }

  /** The word free_align reads is the one malloc_align stored. */
  lemma AlignRoundTrip(mem: seq<byte>, cs: seq<Chunk>, base: nat, start: nat, end: nat, raw: nat, p: nat, size: nat,
      align: nat)
    requires Sound(mem, cs, base, start, end) && raw in HeapModel.Live(mem, cs)
        && AlignedIn(raw, HeapModel.Live(mem, cs)[raw], p, size, align)
    ensures 4 <= p <= |mem| && Le32(mem, p - 4) == raw
  {
    var k := LiveIndex(mem, cs, start, end, raw);
    var payload := Payload(mem, cs[k]);
    var o := p - 4 - raw;
    assert payload[o] == mem[p - 4] && payload[o + 1] == mem[p - 3] && payload[o + 2] == mem[p - 2]
        && payload[o + 3] == mem[p - 1];
  }

  /** Live blocks never overlap; not even their headers reach into one another. */
  lemma LiveDisjoint(mem: seq<byte>, cs: seq<Chunk>, base: nat, start: nat, end: nat, p: nat, q: nat)
    requires Sound(mem, cs, base, start, end)
    requires var live := HeapModel.Live(mem, cs); p in live && q in live && p != q
    ensures var live := HeapModel.Live(mem, cs);
            && start + HEADER <= p && p + |live[p]| <= end
            && (p + |live[p]| + HEADER <= q || q + |live[q]| + HEADER <= p)
  {
    var i := LiveIndex(mem, cs, start, end, p);
    var j := LiveIndex(mem, cs, start, end, q);
    PayloadSize(mem, cs[i]);
    PayloadSize(mem, cs[j]);
    Apart(cs, start, end, i, j);
  }

  /** What growing or shrinking a block makes of the live blocks. */
  ghost predicate Resized(live: map<nat, seq<byte>>, ptr: nat, size: nat, p: nat, live': map<nat, seq<byte>>) {
    && ptr in live
    && if size <= |live[ptr]| then p == ptr && live' == live
       else if p == 0 then live' == live
       else
         && p !in live && p in live' && |live'[p]| >= size && live'[p][..|live[ptr]|] == live[ptr]
         && live' == (live - {ptr})[p := live'[p]]
  }

  function Total(n: nat, size: nat): nat { n * size }

  lemma Product(n: nat, size: nat)
    requires 0 < size
    ensures n > (U32 - 1) / size <==> Total(n, size) >= U32
  {
    var q, r := (U32 - 1) / size, (U32 - 1) % size;
    Quotient(U32 - 1, size, q, r);
    if n > q { Multiples(q + 1, n, size); } else { Multiples(n, q, size); }
    assert Total(q + 1, size) == Total(q, size) + size;
  }

  lemma Multiples(a: nat, b: nat, size: nat)
    requires a <= b
    ensures Total(a, size) <= Total(b, size)
  {
    assert (b - a) * size >= 0;
  }

  /** A store inside a live payload keeps the heap and changes that payload alone. */
  lemma WriteSound(mem: seq<byte>, cs: seq<Chunk>, base: nat, start: nat, end: nat, p: nat, o: nat, b: seq<byte>)
    requires Sound(mem, cs, base, start, end) && p in HeapModel.Live(mem, cs) && o + |b| <= |HeapModel.Live(mem, cs)[p]|
    ensures p + o + |b| <= |mem| && Sound(Splice(mem, p + o, b), cs, base, start, end)
    ensures var live := HeapModel.Live(mem, cs);
        HeapModel.Live(Splice(mem, p + o, b), cs) == live[p := Splice(live[p], o, b)]
  {
    hide Sound, Ordered, HeapModel.Live, Linked, Splice;
    SoundMeans(mem, cs, base, start, end);
    var k := LiveIndex(mem, cs, start, end, p);
    PayloadSize(mem, cs[k]);
    WriteStep(mem, cs, start, end, k, o, b);
    StillSound(mem, Splice(mem, p + o, b), cs, base, start, end);
  }

  lemma StillSound(mem: seq<byte>, mem': seq<byte>, cs: seq<Chunk>, base: nat, start: nat, end: nat)
    requires Sound(mem, cs, base, start, end) && Linked(mem', cs) && |mem'| == |mem|
    ensures Sound(mem', cs, base, start, end)
  {
  }

  lemma OnPage(cs: seq<Chunk>, start: nat, end: nat, k: nat)
    requires Ordered(cs, start, end) && k < |cs|
    ensures start <= cs[k].addr && cs[k].End() <= end && (cs[k].addr - start) % PAGE == 0
  {
  }

  lemma LiveIndex(mem: seq<byte>, cs: seq<Chunk>, start: nat, end: nat, p: nat) returns (k: nat)
    requires Ordered(cs, start, end) && p in HeapModel.Live(mem, cs)
    ensures k < |cs| && !cs[k].free && cs[k].Ptr() == p && HeapModel.Live(mem, cs)[p] == Payload(mem, cs[k])
        && cs[k].End() <= end
  {
    k := PointerIndex(cs, start, end, p);
  }

  /** One pointer came to be live, with room for the request; all others kept their bytes. */
  ghost predicate Allocated(live: map<nat, seq<byte>>, p: nat, size: nat, live': map<nat, seq<byte>>) {
    p !in live && p in live' && |live'[p]| >= size && live' == live[p := live'[p]]
  }

  lemma PayloadSize(mem: seq<byte>, c: Chunk)
    requires c.End() <= |mem|
    ensures |Payload(mem, c)| == c.size
  {
  }

  lemma LinkedInIs(mem: seq<byte>, cs: seq<Chunk>, c: Chunk)
    requires c.End() <= |mem| < U32 && (cs != [] ==> cs[|cs| - 1].End() <= |mem|)
    ensures LinkedIn(mem, cs, c) == if cs == [] then mem else Appended(mem, cs[|cs| - 1].addr, c.addr)
  {
  }
}
