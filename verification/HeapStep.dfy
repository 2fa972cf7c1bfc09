/** The five ways the heap's memory and chunk list change, each with what it does to live payloads. */
module HeapStep {
  import opened Machine
  import opened HeapModel

  lemma HeaderKept(mem: seq<byte>, mem': seq<byte>, a: nat, lo: nat, hi: nat)
    requires OnlyIn(mem, mem', lo, hi) && a + HEADER <= |mem| && (a + HEADER <= lo || hi <= a)
    ensures Load(mem', a) == Load(mem, a)
  {
    HeaderFramed(mem, mem', a);
  }

  lemma PayloadKept(mem: seq<byte>, mem': seq<byte>, c: Chunk, lo: nat, hi: nat)
    requires OnlyIn(mem, mem', lo, hi) && (c.End() <= lo || hi <= c.Ptr())
    ensures Payload(mem', c) == Payload(mem, c)
  {
  }

  /** Headers and payloads of different chunks do not meet. */
  lemma Apart(cs: seq<Chunk>, start: nat, end: nat, i: nat, j: nat)
    requires Ordered(cs, start, end) && i < |cs| && j < |cs| && i != j
    ensures cs[i].End() <= cs[j].addr || cs[j].End() <= cs[i].addr
  {
  }

  /** Apart from the chunk behind p, both heaps have the same live chunks with the same bytes. */
  ghost predicate Agree(mem: seq<byte>, cs: seq<Chunk>, mem': seq<byte>, cs': seq<Chunk>, p: nat) {
    && (forall c :: c in cs && !c.free && c.Ptr() != p ==> c in cs' && Payload(mem', c) == Payload(mem, c))
    && (forall c :: c in cs' && !c.free && c.Ptr() != p ==> c in cs)
  }

  lemma LiveChunk(mem: seq<byte>, cs: seq<Chunk>, start: nat, end: nat, c: Chunk)
    requires Ordered(cs, start, end) && c in cs && !c.free
    ensures c.Ptr() in Live(mem, cs) && Live(mem, cs)[c.Ptr()] == Payload(mem, c)
  {
    var i :| 0 <= i < |cs| && cs[i] == c;
    LiveAt(mem, cs, start, end, i);
  }

  lemma LiveOrigin(mem: seq<byte>, cs: seq<Chunk>, start: nat, end: nat, p: nat) returns (c: Chunk)
    requires Ordered(cs, start, end) && p in Live(mem, cs)
    ensures c in cs && !c.free && c.Ptr() == p && Live(mem, cs)[p] == Payload(mem, c)
  {
    var i := PointerIndex(cs, start, end, p);
    c := cs[i];
  }

  /** Then clients other than the holder of p see no difference. */
  lemma AgreeLive(mem: seq<byte>, cs: seq<Chunk>, mem': seq<byte>, cs': seq<Chunk>, start: nat, end: nat, end': nat,
      p: nat)
    requires Ordered(cs, start, end) && Ordered(cs', start, end') && Agree(mem, cs, mem', cs', p)
    ensures Live(mem', cs') - {p} == Live(mem, cs) - {p}
  {
    hide Live, Ordered, Payload, Chunk.Ptr;
    var l, l' := Live(mem, cs), Live(mem', cs');
    forall q | q in l && q != p ensures q in l' && l'[q] == l[q] {
      var c := LiveOrigin(mem, cs, start, end, q);
      LiveChunk(mem', cs', start, end', c);
    }
    forall q | q in l' && q != p ensures q in l {
      var c := LiveOrigin(mem', cs', start, end', q);
      LiveChunk(mem, cs, start, end, c);
    }
  }

  ghost predicate Flagged(mem: seq<byte>, cs: seq<Chunk>, k: nat, flag: u32, mem': seq<byte>, cs': seq<Chunk>) {
    && k < |cs| && cs[k].addr + HEADER <= |mem|
    && mem' == Store32(mem, cs[k].addr + 4, flag) && cs' == cs[k := cs[k].(free := flag != 0)]
  }

  /** Setting the free flag of one chunk. */
  lemma FlagStep(mem: seq<byte>, cs: seq<Chunk>, start: nat, end: nat, k: nat, flag: u32, mem': seq<byte>,
      cs': seq<Chunk>)
    requires Ordered(cs, start, end) && Linked(mem, cs) && Flagged(mem, cs, k, flag, mem', cs')
    ensures Ordered(cs', start, end) && Linked(mem', cs')
    ensures OnlyIn(mem, mem', cs[k].addr, cs[k].Ptr())
  {
    hide Load, Store32;
    FieldOnly(mem, cs[k].addr, 4, flag);
    forall i: nat | i < |cs'| ensures Encoded(mem', cs', i) {
      assert Encoded(mem, cs, i);
      if i == k {
        FieldStored(mem, cs[k].addr, 4, flag);
      } else {
        Apart(cs, start, end, i, k);
        HeaderKept(mem, mem', cs[i].addr, cs[k].addr, cs[k].Ptr());
      }
    }
  }

  /** Other live payloads keep their bytes when one chunk's flag is set. */
  lemma FlagAgree(mem: seq<byte>, cs: seq<Chunk>, start: nat, end: nat, k: nat, flag: u32, mem': seq<byte>,
      cs': seq<Chunk>)
    requires Ordered(cs, start, end) && Linked(mem, cs) && Flagged(mem, cs, k, flag, mem', cs')
    ensures Agree(mem, cs, mem', cs', cs[k].Ptr()) && Payload(mem', cs'[k]) == Payload(mem, cs[k])
  {
    hide Load, Store32, Linked, Payload;
    FlagStep(mem, cs, start, end, k, flag, mem', cs');
    forall c | c in cs && c.Ptr() != cs[k].Ptr() ensures c in cs' && Payload(mem', c) == Payload(mem, c) {
      var i :| 0 <= i < |cs| && cs[i] == c;
      assert cs'[i] == c;
      Apart(cs, start, end, i, k);
      PayloadKept(mem, mem', c, cs[k].addr, cs[k].Ptr());
    }
    forall c | c in cs' && c.Ptr() != cs[k].Ptr() ensures c in cs {
      var i :| 0 <= i < |cs'| && cs'[i] == c;
      assert cs[i] == c;
    }
    PayloadKept(mem, mem', cs'[k], cs[k].addr, cs[k].Ptr());
    SamePayload(mem, cs[k], flag != 0);
  }

  lemma SamePayload(mem: seq<byte>, c: Chunk, free: bool)
    ensures Payload(mem, c.(free := free)) == Payload(mem, c)
  {
  }

  /** Whether a pointer is live, by its chunk's flag. */
  lemma PointerIs(mem: seq<byte>, cs: seq<Chunk>, start: nat, end: nat, k: nat)
    requires Ordered(cs, start, end) && k < |cs|
    ensures cs[k].Ptr() in Live(mem, cs) <==> !cs[k].free
    ensures !cs[k].free ==> Live(mem, cs)[cs[k].Ptr()] == Payload(mem, cs[k])
  {
    if !cs[k].free {
      LiveAt(mem, cs, start, end, k);
    } else if cs[k].Ptr() in Live(mem, cs) {
      var i := PointerIndex(cs, start, end, cs[k].Ptr());
      Apart(cs, start, end, i, k);
    }
  }

  lemma FlagLive(mem: seq<byte>, cs: seq<Chunk>, start: nat, end: nat, k: nat, flag: u32, mem': seq<byte>,
      cs': seq<Chunk>)
    requires Ordered(cs, start, end) && Linked(mem, cs) && Flagged(mem, cs, k, flag, mem', cs')
    ensures var p := cs[k].Ptr();
            Live(mem', cs') == if flag != 0 then Live(mem, cs) - {p} else Live(mem, cs)[p := Payload(mem, cs[k])]
  {
    hide Load, Store32, Linked, Payload, Live, Agree, Ordered;
    FlagStep(mem, cs, start, end, k, flag, mem', cs');
    FlagAgree(mem, cs, start, end, k, flag, mem', cs');
    AgreeLive(mem, cs, mem', cs', start, end, end, cs[k].Ptr());
    PointerIs(mem', cs', start, end, k);
    MapBut(Live(mem, cs), Live(mem', cs'), cs[k].Ptr());
  }

  lemma MapBut(m: map<nat, seq<byte>>, m': map<nat, seq<byte>>, p: nat)
    requires m' - {p} == m - {p}
    ensures p !in m' ==> m' == m - {p}
    ensures p in m' ==> m' == m[p := m'[p]]
  {
    assert forall q :: q in m' && q != p ==> q in m' - {p};
    assert forall q :: q in m && q != p ==> q in m - {p};
    forall q | q in m' && q != p ensures q in m && m'[q] == m[q] { assert (m' - {p})[q] == (m - {p})[q]; }
    forall q | q in m && q != p ensures q in m' && m'[q] == m[q] { assert (m' - {p})[q] == (m - {p})[q]; }
  }

  /** A chunk and its successor made one; the successor's header becomes payload. */
  function Merged(a: Chunk, b: Chunk): Chunk {
    Chunk(a.addr, a.size + HEADER + b.size, true)
  }

  function Merge(cs: seq<Chunk>, k: nat): (r: seq<Chunk>)
    requires k + 1 < |cs|
    ensures |r| == |cs| - 1
  {
    cs[..k] + [Merged(cs[k], cs[k + 1])] + cs[k + 2..]
  }

  /** Which chunk of the old list a chunk of the merged list is. */
  function Origin(k: nat, i: nat): nat { if i <= k then i else i + 1 }

  lemma MergeAt(cs: seq<Chunk>, k: nat, i: nat)
    requires k + 1 < |cs| && i < |cs| - 1
    ensures Merge(cs, k)[i] == if i == k then Merged(cs[k], cs[k + 1]) else cs[Origin(k, i)]
  {
  }

  lemma MergeOrdered(cs: seq<Chunk>, start: nat, end: nat, k: nat)
    requires Ordered(cs, start, end) && k + 1 < |cs|
    ensures Ordered(Merge(cs, k), start, end)
  {
    var cs' := Merge(cs, k);
    forall i | 0 <= i < |cs'| ensures start <= cs'[i].addr && cs'[i].End() <= end && 0 < cs'[i].size
        && (cs'[i].addr - start) % PAGE == 0 {
      MergeAt(cs, k, i);
    }
    forall i, j | 0 <= i < j < |cs'| ensures cs'[i].End() <= cs'[j].addr {
      MergeAt(cs, k, i);
      MergeAt(cs, k, j);
    }
  }

  /** The stores of one coalescing step. */
  function Absorbed(mem: seq<byte>, a: u32, size: u32, next: u32): (r: seq<byte>)
    requires a + HEADER <= |mem| && (next != 0 ==> next + HEADER <= |mem|)
    ensures |r| == |mem|
  {
    var m := Store32(Store32(mem, a, size), a + 12, next);
    if next == 0 then m else Store32(m, next + 8, a)
  }

  /** Only the headers of the chunk and of its new successor are written. */
  lemma AbsorbedLoad(mem: seq<byte>, a: u32, size: u32, next: u32)
    requires a + HEADER <= |mem| && (next != 0 ==> next + HEADER <= |mem| && (a + HEADER <= next || next + HEADER <= a))
    ensures var h, m := Load(mem, a), Absorbed(mem, a, size, next);
            && Load(m, a) == h.(size := size, next := next)
            && (next != 0 ==> Load(m, next) == Load(mem, next).(prev := a))
  {
    hide Load, Store32, Le32;
    var m1 := Store32(mem, a, size);
    var m2 := Store32(m1, a + 12, next);
    FieldStored(mem, a, 0, size);
    FieldStored(m1, a, 12, next);
    FieldOnly(mem, a, 0, size);
    FieldOnly(m1, a, 12, next);
    if next != 0 {
      HeaderKept(mem, m1, next, a, a + HEADER);
      HeaderKept(m1, m2, next, a, a + HEADER);
      FieldStored(m2, next, 8, a);
      FieldOnly(m2, next, 8, a);
      HeaderKept(m2, Absorbed(mem, a, size, next), a, next, next + HEADER);
    }
  }

  lemma AbsorbedElse(mem: seq<byte>, a: u32, size: u32, next: u32, lo: nat, hi: nat)
    requires a + HEADER <= |mem| && (next != 0 ==> next + HEADER <= |mem|) && lo <= hi <= |mem|
    requires (hi <= a || a + HEADER <= lo) && (next != 0 ==> hi <= next || next + HEADER <= lo)
    ensures forall k :: lo <= k < hi ==> Absorbed(mem, a, size, next)[k] == mem[k]
  {
    hide Store32;
    var m1 := Store32(mem, a, size);
    var m2 := Store32(m1, a + 12, next);
    FieldOnly(mem, a, 0, size);
    FieldOnly(m1, a, 12, next);
    if next != 0 { FieldOnly(m2, next, 8, a); }
  }

  /** Everything a coalescing step of chunks k and k + 1 writes. */
  ghost predicate Absorbs(mem: seq<byte>, cs: seq<Chunk>, start: nat, end: nat, k: nat, mem': seq<byte>) {
    && 0 < start && end <= |mem| < U32 && Ordered(cs, start, end) && Linked(mem, cs) && k + 1 < |cs|
    && mem' == Absorbed(mem, cs[k].addr, cs[k].size + HEADER + cs[k + 1].size, NextOf(cs, k + 1))
  }

  lemma AbsorbedHeader(mem: seq<byte>, cs: seq<Chunk>, start: nat, end: nat, k: nat, mem': seq<byte>, i: nat)
    requires Absorbs(mem, cs, start, end, k, mem') && i < |cs| && i != k + 1
    ensures Load(mem', cs[i].addr) == if i == k
        then Load(mem, cs[k].addr).(size := cs[k].size + HEADER + cs[k + 1].size, next := NextOf(cs, k + 1))
                                      else if i == k + 2 then Load(mem, cs[i].addr).(prev := cs[k].addr)
                                      else Load(mem, cs[i].addr)
  {
    hide Load, Absorbed, Linked;
    var a, size, next := cs[k].addr, cs[k].size + HEADER + cs[k + 1].size, NextOf(cs, k + 1);
    AbsorbedLoad(mem, a, size, next);
    if i != k && i != k + 2 {
      Apart(cs, start, end, i, k);
      if k + 2 < |cs| { Apart(cs, start, end, i, k + 2); }
      AbsorbedElse(mem, a, size, next, cs[i].addr, cs[i].Ptr());
      HeaderFramed(mem, mem', cs[i].addr);
    }
  }

  lemma AbsorbLinked(mem: seq<byte>, cs: seq<Chunk>, start: nat, end: nat, k: nat, mem': seq<byte>)
    requires Absorbs(mem, cs, start, end, k, mem') && cs[k].free
    ensures Linked(mem', Merge(cs, k)) && |mem'| == |mem|
  {
    hide Load, Absorbed, Ordered, Merge;
    var cs' := Merge(cs, k);
    forall i: nat | i < |cs'| ensures Encoded(mem', cs', i) {
      var j := Origin(k, i);
      MergeAt(cs, k, i);
      if i > 0 { MergeAt(cs, k, i - 1); }
      if i + 1 < |cs'| { MergeAt(cs, k, i + 1); }
      assert Encoded(mem, cs, j) && Encoded(mem, cs, k + 1);
      AbsorbedHeader(mem, cs, start, end, k, mem', j);
      if i == k { MergedFits(mem, cs, start, end, k); }
    }
  }

  lemma MergedFits(mem: seq<byte>, cs: seq<Chunk>, start: nat, end: nat, k: nat)
    requires Ordered(cs, start, end) && end <= |mem| && k + 1 < |cs|
    ensures Merged(cs[k], cs[k + 1]).End() <= |mem|
  {
    Apart(cs, start, end, k, k + 1);
  }

  lemma AbsorbedPayload(mem: seq<byte>, cs: seq<Chunk>, start: nat, end: nat, k: nat, mem': seq<byte>, j: nat)
    requires Absorbs(mem, cs, start, end, k, mem') && j < |cs| && j != k && j != k + 1
    ensures Payload(mem', cs[j]) == Payload(mem, cs[j])
  {
    hide Absorbed, Linked;
    Apart(cs, start, end, j, k);
    if k + 2 < |cs| && j != k + 2 { Apart(cs, start, end, j, k + 2); }
    AbsorbedElse(mem, cs[k].addr, cs[k].size + HEADER + cs[k + 1].size, NextOf(cs, k + 1), cs[j].Ptr(), cs[j].End());
  }

  /** Coalescing two free chunks leaves every live payload alone. */
  lemma AbsorbAgree(mem: seq<byte>, cs: seq<Chunk>, start: nat, end: nat, k: nat, mem': seq<byte>)
    requires Absorbs(mem, cs, start, end, k, mem') && k + 1 < |cs| && cs[k].free && cs[k + 1].free
    ensures Agree(mem, cs, mem', Merge(cs, k), 0)
  {
    hide Absorbed, Linked, Merge, Payload, Ordered, Absorbs;
    var cs' := Merge(cs, k);
    forall c | c in cs && !c.free ensures c in cs' && Payload(mem', c) == Payload(mem, c) {
      var j :| 0 <= j < |cs| && cs[j] == c;
      MergeAt(cs, k, if j < k then j else j - 1);
      AbsorbedPayload(mem, cs, start, end, k, mem', j);
    }
    forall c | c in cs' && !c.free ensures c in cs {
      var i :| 0 <= i < |cs'| && cs'[i] == c;
      MergeAt(cs, k, i);
    }
  }

  lemma AbsorbStep(mem: seq<byte>, cs: seq<Chunk>, start: nat, end: nat, k: nat, mem': seq<byte>)
    requires Absorbs(mem, cs, start, end, k, mem') && cs[k].free && cs[k + 1].free
    ensures |mem'| == |mem| && Ordered(Merge(cs, k), start, end) && Linked(mem', Merge(cs, k))
    ensures Live(mem', Merge(cs, k)) == Live(mem, cs)
  {
    hide Load, Absorbed, Linked, Merge, Agree;
    MergeOrdered(cs, start, end, k);
    AbsorbLinked(mem, cs, start, end, k, mem');
    AbsorbAgree(mem, cs, start, end, k, mem');
    AgreeLive(mem, cs, mem', Merge(cs, k), start, end, end, 0);
    NoNull(mem, cs, start, end);
    NoNull(mem', Merge(cs, k), start, end);
    MapBut(Live(mem, cs), Live(mem', Merge(cs, k)), 0);
  }

  lemma NoNull(mem: seq<byte>, cs: seq<Chunk>, start: nat, end: nat)
    requires Ordered(cs, start, end)
    ensures 0 !in Live(mem, cs) && Live(mem, cs) - {0} == Live(mem, cs)
  {
  }

  /** Bytes behind the last chunk may change freely. */
  lemma BeyondStep(mem: seq<byte>, mem': seq<byte>, cs: seq<Chunk>, start: nat, end: nat)
    requires Ordered(cs, start, end) && Linked(mem, cs) && end <= |mem| && OnlyIn(mem, mem', end, |mem|)
    ensures Linked(mem', cs) && Live(mem', cs) == Live(mem, cs)
  {
    hide Load;
    forall i: nat | i < |cs| ensures Encoded(mem', cs, i) {
      assert Encoded(mem, cs, i);
      HeaderKept(mem, mem', cs[i].addr, end, |mem|);
    }
    forall p | p in Pointers(cs) ensures Payload(mem', Find(cs, p)) == Payload(mem, Find(cs, p)) {
      var i := PointerIndex(cs, start, end, p);
      PayloadKept(mem, mem', cs[i], end, |mem|);
    }
  }

  /** The stores that make and link a new last chunk. */
  function NewHeader(mem: seq<byte>, a: nat, size: u32): (r: seq<byte>)
    requires a + HEADER <= |mem|
    ensures |r| == |mem|
  {
    Store32(Store32(Store32(Store32(mem, a, size), a + 4, 0), a + 8, 0), a + 12, 0)
  }

  lemma NewHeaderLoad(mem: seq<byte>, a: nat, size: u32)
    requires a + HEADER <= |mem|
    ensures Load(NewHeader(mem, a, size), a) == Header(size, 0, 0, 0)
        && OnlyIn(mem, NewHeader(mem, a, size), a, a + HEADER)
  {
    hide Load, Store32;
    var m1 := Store32(mem, a, size);
    var m2 := Store32(m1, a + 4, 0);
    var m3 := Store32(m2, a + 8, 0);
    FieldStored(mem, a, 0, size);
    FieldStored(m1, a, 4, 0);
    FieldStored(m2, a, 8, 0);
    FieldStored(m3, a, 12, 0);
    FieldOnly(mem, a, 0, size);
    FieldOnly(m1, a, 4, 0);
    FieldOnly(m2, a, 8, 0);
    FieldOnly(m3, a, 12, 0);
  }

  function Appended(mem: seq<byte>, last: u32, a: u32): (r: seq<byte>)
    requires last + HEADER <= |mem| && a + HEADER <= |mem|
    ensures |r| == |mem|
  {
    Store32(Store32(mem, last + 12, a), a + 8, last)
  }

  lemma AppendedLoad(mem: seq<byte>, last: u32, a: u32)
    requires last + HEADER <= a && a + HEADER <= |mem|
    ensures var m := Appended(mem, last, a);
            Load(m, last) == Load(mem, last).(next := a) && Load(m, a) == Load(mem, a).(prev := last)
  {
    hide Load, Store32;
    var m1 := Store32(mem, last + 12, a);
    FieldStored(mem, last, 12, a);
    FieldOnly(mem, last, 12, a);
    FieldStored(m1, a, 8, last);
    FieldOnly(m1, a, 8, last);
    HeaderKept(mem, m1, a, last, last + HEADER);
    HeaderKept(m1, Appended(mem, last, a), last, a, a + HEADER);
  }

  lemma AppendedElse(mem: seq<byte>, last: u32, a: u32, lo: nat, hi: nat)
    requires last + HEADER <= |mem| && a + HEADER <= |mem| && lo <= hi <= |mem|
    requires (hi <= last || last + HEADER <= lo) && (hi <= a || a + HEADER <= lo)
    ensures forall k :: lo <= k < hi ==> Appended(mem, last, a)[k] == mem[k]
  {
    hide Store32;
    FieldOnly(mem, last, 12, a);
    FieldOnly(Store32(mem, last + 12, a), a, 8, last);
  }

  /** A chunk behind all others, with its header written but not yet linked in. */
  ghost predicate Behind(mem: seq<byte>, cs: seq<Chunk>, start: nat, end: nat, c: Chunk, end': nat) {
    && 0 < start <= end <= c.addr && c.End() <= end' <= |mem| < U32 && Ordered(cs, start, end) && Linked(mem, cs)
    && !c.free && 0 < c.size && (c.addr - start) % PAGE == 0 && Load(mem, c.addr) == Header(c.size, 0, 0, 0)
  }

  /** The memory once the chunk is linked in. */
  ghost function LinkedIn(mem: seq<byte>, cs: seq<Chunk>, c: Chunk): seq<byte>
    requires c.End() <= |mem| < U32 && (cs != [] ==> cs[|cs| - 1].End() <= |mem|)
  {
    if cs == [] then mem else Appended(mem, cs[|cs| - 1].addr, c.addr)
  }

  lemma AppendOrdered(mem: seq<byte>, cs: seq<Chunk>, start: nat, end: nat, c: Chunk, end': nat)
    requires Behind(mem, cs, start, end, c, end')
    ensures Ordered(cs + [c], start, end') && (cs != [] ==> cs[|cs| - 1].End() <= c.addr)
  {
  }

  lemma AppendLinked(mem: seq<byte>, cs: seq<Chunk>, start: nat, end: nat, c: Chunk, end': nat)
    requires Behind(mem, cs, start, end, c, end')
    ensures cs != [] ==> cs[|cs| - 1].End() <= |mem|
    ensures Linked(LinkedIn(mem, cs, c), cs + [c])
  {
    hide Load, Appended, Ordered;
    AppendOrdered(mem, cs, start, end, c, end');
    var cs', n := cs + [c], |cs|;
    if n > 0 { AppendedLoad(mem, cs[n - 1].addr, c.addr); }
    forall i: nat | i < |cs'| ensures Encoded(LinkedIn(mem, cs, c), cs', i) {
      assert i < n ==> Encoded(mem, cs, i);
      if i < n - 1 {
        Apart(cs', start, end', i, n - 1);
        Apart(cs', start, end', i, n);
        AppendedElse(mem, cs[n - 1].addr, c.addr, cs[i].addr, cs[i].Ptr());
        HeaderFramed(mem, LinkedIn(mem, cs, c), cs[i].addr);
      }
    }
  }

  lemma AppendAgree(mem: seq<byte>, cs: seq<Chunk>, start: nat, end: nat, c: Chunk, end': nat)
    requires Behind(mem, cs, start, end, c, end')
    ensures cs != [] ==> cs[|cs| - 1].End() <= |mem|
    ensures Agree(mem, cs, LinkedIn(mem, cs, c), cs + [c], c.Ptr())
    ensures Payload(LinkedIn(mem, cs, c), c) == Payload(mem, c)
  {
    hide Load, LinkedIn, Linked, Ordered, Payload;
    AppendOrdered(mem, cs, start, end, c, end');
    LastFits(mem, cs, start, end, c, end');
    var cs', n, mem' := cs + [c], |cs|, LinkedIn(mem, cs, c);
    forall d | d in cs' ensures Payload(mem', d) == Payload(mem, d) {
      var i :| 0 <= i < |cs'| && cs'[i] == d;
      AppendedPayload(mem, cs, start, end, c, end', i);
    }
    assert cs'[n] == c;
  }

  lemma LastFits(mem: seq<byte>, cs: seq<Chunk>, start: nat, end: nat, c: Chunk, end': nat)
    requires Behind(mem, cs, start, end, c, end')
    ensures cs != [] ==> cs[|cs| - 1].End() <= |mem|
  {
  }

  lemma AppendedPayload(mem: seq<byte>, cs: seq<Chunk>, start: nat, end: nat, c: Chunk, end': nat, i: nat)
    requires Behind(mem, cs, start, end, c, end') && i <= |cs|
    ensures cs != [] ==> cs[|cs| - 1].End() <= |mem|
    ensures Payload(LinkedIn(mem, cs, c), (cs + [c])[i]) == Payload(mem, (cs + [c])[i])
  {
    hide Load, Appended, Linked, Ordered;
    AppendOrdered(mem, cs, start, end, c, end');
    var cs', n := cs + [c], |cs|;
    if n > 0 {
      if i != n - 1 { Apart(cs', start, end', i, n - 1); }
      if i != n { Apart(cs', start, end', i, n); }
      AppendedElse(mem, cs[n - 1].addr, c.addr, cs'[i].Ptr(), cs'[i].End());
    }
  }

  lemma AppendStep(mem: seq<byte>, cs: seq<Chunk>, start: nat, end: nat, c: Chunk, end': nat)
    requires Behind(mem, cs, start, end, c, end')
    ensures cs != [] ==> cs[|cs| - 1].End() <= |mem|
    ensures var mem' := LinkedIn(mem, cs, c);
            && Ordered(cs + [c], start, end') && Linked(mem', cs + [c])
            && c.Ptr() !in Live(mem, cs) && Live(mem', cs + [c]) == Live(mem, cs)[c.Ptr() := Payload(mem, c)]
  {
    hide Load, Appended, Linked, Live, Payload, Agree;
    AppendOrdered(mem, cs, start, end, c, end');
    AppendLinked(mem, cs, start, end, c, end');
    AppendAgree(mem, cs, start, end, c, end');
    var mem' := LinkedIn(mem, cs, c);
    AgreeLive(mem, cs, mem', cs + [c], start, end, end', c.Ptr());
    assert (cs + [c])[|cs|] == c;
    PointerIs(mem', cs + [c], start, end', |cs|);
    MapBut(Live(mem, cs), Live(mem', cs + [c]), c.Ptr());
    NotYetLive(mem, cs, start, end, c);
  }

  lemma NotYetLive(mem: seq<byte>, cs: seq<Chunk>, start: nat, end: nat, c: Chunk)
    requires Ordered(cs, start, end) && end <= c.addr
    ensures c.Ptr() !in Live(mem, cs)
  {
  }

  /** Bytes written inside a live payload change that payload and nothing else. */
  lemma WriteStep(mem: seq<byte>, cs: seq<Chunk>, start: nat, end: nat, k: nat, o: nat, b: seq<byte>)
    requires Ordered(cs, start, end) && Linked(mem, cs) && end <= |mem| && k < |cs| && !cs[k].free
        && o + |b| <= cs[k].size
    ensures cs[k].Ptr() + o + |b| <= |mem|
    ensures var mem' := Splice(mem, cs[k].Ptr() + o, b);
            && Linked(mem', cs) && Live(mem', cs) == Live(mem, cs)[cs[k].Ptr() := Splice(Payload(mem, cs[k]), o, b)]
  {
    hide Load, Live, Agree;
    var mem', lo, hi := Splice(mem, cs[k].Ptr() + o, b), cs[k].Ptr(), cs[k].End();
    assert OnlyIn(mem, mem', lo, hi);
    forall i: nat | i < |cs| ensures Encoded(mem', cs, i) {
      assert Encoded(mem, cs, i);
      if i != k { Apart(cs, start, end, i, k); }
      HeaderKept(mem, mem', cs[i].addr, lo, hi);
    }
    WriteAgree(mem, mem', cs, start, end, k);
    AgreeLive(mem, cs, mem', cs, start, end, end, lo);
    PointerIs(mem', cs, start, end, k);
    assert Payload(mem', cs[k]) == Splice(Payload(mem, cs[k]), o, b);
    MapBut(Live(mem, cs), Live(mem', cs), lo);
  }

  lemma WriteAgree(mem: seq<byte>, mem': seq<byte>, cs: seq<Chunk>, start: nat, end: nat, k: nat)
    requires Ordered(cs, start, end) && k < |cs| && OnlyIn(mem, mem', cs[k].Ptr(), cs[k].End())
    ensures Agree(mem, cs, mem', cs, cs[k].Ptr())
  {
    hide Payload;
    forall c | c in cs && c.Ptr() != cs[k].Ptr() ensures Payload(mem', c) == Payload(mem, c) {
      var i :| 0 <= i < |cs| && cs[i] == c;
      Apart(cs, start, end, i, k);
      PayloadKept(mem, mem', c, cs[k].Ptr(), cs[k].End());
    }
  }
}
