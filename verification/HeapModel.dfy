/**
 The kernel heap as bytes: a doubly linked list of chunks whose 16-byte headers lie in the same memory as
 the payloads they describe. Chunks are named by the ghost sequence the headers encode.
 */
module HeapModel {
  import opened Machine

  const HEADER: nat := 16
  const PAGE: nat := 4096

  /** A chunk: where its header is, how many payload bytes follow, and whether they are free. */
  datatype Chunk = Chunk(addr: nat, size: nat, free: bool) {
    function Ptr(): nat { addr + HEADER }
    function End(): nat { addr + HEADER + size }
  }

  function Store32(mem: seq<byte>, a: nat, x: u32): (r: seq<byte>)
    requires a + 4 <= |mem|
    ensures |r| == |mem|
  {
    Splice(mem, a, Bytes32(x))
  }

  lemma LoadStored(mem: seq<byte>, a: nat, x: u32)
    requires a + 4 <= |mem|
    ensures Le32(Store32(mem, a, x), a) == x
  {
    var b, m := Bytes32(x), Store32(mem, a, x);
    assert m[a] == b[0] && m[a + 1] == b[1] && m[a + 2] == b[2] && m[a + 3] == b[3];
    assert Le32(b, 0) == Le16(b, 0) as int + 0x1_0000 * Le16(b, 2) as int;
  }

  lemma LoadFramed(mem: seq<byte>, mem': seq<byte>, b: nat)
    requires b + 4 <= |mem| == |mem'| && forall k :: b <= k < b + 4 ==> mem'[k] == mem[k]
    ensures Le32(mem', b) == Le32(mem, b)
  {
    assert mem'[b] == mem[b] && mem'[b + 1] == mem[b + 1] && mem'[b + 2] == mem[b + 2] && mem'[b + 3] == mem[b + 3];
  }

  /** The four header fields of struct heap_chunk. */
  datatype Header = Header(size: u32, free: u32, prev: u32, next: u32)

  function Load(mem: seq<byte>, a: nat): Header
    requires a + HEADER <= |mem|
  {
    Header(Le32(mem, a), Le32(mem, a + 4), Le32(mem, a + 8), Le32(mem, a + 12))
  }

  /** Memory that agrees on the header's bytes holds the same header. */
  lemma HeaderFramed(mem: seq<byte>, mem': seq<byte>, a: nat)
    requires a + HEADER <= |mem| == |mem'| && forall k :: a <= k < a + HEADER ==> mem'[k] == mem[k]
    ensures Load(mem', a) == Load(mem, a)
  {
    LoadFramed(mem, mem', a);
    LoadFramed(mem, mem', a + 4);
    LoadFramed(mem, mem', a + 8);
    LoadFramed(mem, mem', a + 12);
  }

  /** A field of the header, by its offset. */
  function With(h: Header, f: nat, x: u32): Header
    requires f in {0, 4, 8, 12}
  {
    if f == 0 then h.(size := x) else if f == 4 then h.(free := x) else if f == 8 then h.(prev := x) else h.(next := x)
  }

  /** Storing one field changes that field of that header. */
  lemma FieldStored(mem: seq<byte>, a: nat, f: nat, x: u32)
    requires a + HEADER <= |mem| && f in {0, 4, 8, 12}
    ensures Load(Store32(mem, a + f, x), a) == With(Load(mem, a), f, x)
  {
    hide Le32, Bytes32;
    var m := Store32(mem, a + f, x);
    LoadStored(mem, a + f, x);
    if f != 0 { LoadFramed(mem, m, a); }
    if f != 4 { LoadFramed(mem, m, a + 4); }
    if f != 8 { LoadFramed(mem, m, a + 8); }
    if f != 12 { LoadFramed(mem, m, a + 12); }
  }

  /** Only the bytes of [lo, hi) may differ. */
  ghost predicate OnlyIn(mem: seq<byte>, mem': seq<byte>, lo: nat, hi: nat) {
    |mem'| == |mem| && forall k :: 0 <= k < |mem| && !(lo <= k < hi) ==> mem'[k] == mem[k]
  }

  lemma FieldOnly(mem: seq<byte>, a: nat, f: nat, x: u32)
    requires a + HEADER <= |mem| && f in {0, 4, 8, 12}
    ensures OnlyIn(mem, Store32(mem, a + f, x), a, a + HEADER)
  {
  }

  /** Chunks in address order, disjoint, inside [start, end), on page boundaries counted from start. */
  ghost predicate Ordered(cs: seq<Chunk>, start: nat, end: nat) {
    && (forall i ::
          0 <= i < |cs| ==>
            start <= cs[i].addr && cs[i].End() <= end && 0 < cs[i].size && (cs[i].addr - start) % PAGE == 0)
    && (forall i, j :: 0 <= i < j < |cs| ==> cs[i].End() <= cs[j].addr)
  }

  function PrevOf(cs: seq<Chunk>, i: nat): nat
    requires i < |cs|
  {
    if i == 0 then 0 else cs[i - 1].addr
  }

  function NextOf(cs: seq<Chunk>, i: nat): nat
    requires i < |cs|
  {
    if i + 1 == |cs| then 0 else cs[i + 1].addr
  }

  /** The header in memory is the one the i-th chunk should have. */
  ghost predicate Encoded(mem: seq<byte>, cs: seq<Chunk>, i: nat)
    requires i < |cs|
  {
    && cs[i].End() <= |mem|
    && var h := Load(mem, cs[i].addr);
    h.size == cs[i].size && (h.free != 0 <==> cs[i].free) && h.prev == PrevOf(cs, i) && h.next == NextOf(cs, i)
  }

  ghost predicate Linked(mem: seq<byte>, cs: seq<Chunk>) {
    forall i: nat | i < |cs| :: Encoded(mem, cs, i)
  }

  /** No two neighbours are both free. */
  ghost predicate Coalesced(cs: seq<Chunk>) {
    forall i, j :: 0 <= i && j == i + 1 < |cs| ==> !(cs[i].free && cs[j].free)
  }

  /** The pointers handed out and not freed. */
  ghost function Pointers(cs: seq<Chunk>): set<nat> {
    set i | 0 <= i < |cs| && !cs[i].free :: cs[i].Ptr()
  }

  function Payload(mem: seq<byte>, c: Chunk): seq<byte> {
    if c.End() <= |mem| then mem[c.Ptr()..c.End()] else []
  }

  /** The chunk behind a pointer. */
  ghost function Find(cs: seq<Chunk>, p: nat): Chunk {
    if cs == [] then Chunk(0, 0, true) else if cs[0].Ptr() == p then cs[0] else Find(cs[1..], p)
  }

  lemma {:induction false} FindAt(cs: seq<Chunk>, i: nat)
    requires i < |cs| && forall a, b :: 0 <= a < b < |cs| ==> cs[a].addr != cs[b].addr
    ensures Find(cs, cs[i].Ptr()) == cs[i]
  {
    if i > 0 {
      assert cs[0].addr != cs[i].addr;
      assert cs[1..][i - 1] == cs[i];
      FindAt(cs[1..], i - 1);
    }
  }

  /** What clients hold: every live pointer and the bytes behind it. */
  ghost function Live(mem: seq<byte>, cs: seq<Chunk>): map<nat, seq<byte>> {
    map p | p in Pointers(cs) :: Payload(mem, Find(cs, p))
  }

  lemma LiveAt(mem: seq<byte>, cs: seq<Chunk>, start: nat, end: nat, i: nat)
    requires Ordered(cs, start, end) && i < |cs| && !cs[i].free
    ensures cs[i].Ptr() in Live(mem, cs) && Live(mem, cs)[cs[i].Ptr()] == Payload(mem, cs[i])
  {
    FindAt(cs, i);
    assert cs[i].Ptr() in Pointers(cs);
  }

  lemma PointerIndex(cs: seq<Chunk>, start: nat, end: nat, p: nat) returns (i: nat)
    requires Ordered(cs, start, end) && p in Pointers(cs)
    ensures i < |cs| && !cs[i].free && cs[i].Ptr() == p && Find(cs, p) == cs[i]
  {
    i :| 0 <= i < |cs| && !cs[i].free && cs[i].Ptr() == p;
    FindAt(cs, i);
  }
}
