/** Whole runs of the allocator: what its methods guarantee, call after call. */
module HeapRun {
  import opened Machine
  import opened HeapModel
  import opened Heap

  datatype Call =
    | MallocCall(size: nat)
    | CallocCall(n: nat, size: nat)
    | FreeCall(p: nat)
    | ReallocCall(p: nat, size: nat)
    | WriteCall(p: nat, o: nat, b: seq<byte>)

  /** A heap at a moment; granted heaps are refused no frame. */
  datatype State = State(mem: seq<byte>, cs: seq<Chunk>, base: nat, start: nat, end: nat, granted: bool) {
    ghost predicate Ok() { Sound(mem, cs, base, start, end) }

    ghost function Blocks(): map<nat, seq<byte>> { Live(mem, cs) }
  }

  /** A request of the state is answered: met only if it can be, and always by a free chunk or granted frames. */
  ghost predicate Answered(s: State, size: nat, ret: nat) {
    size < U32 && Served(s.cs, s.end, |s.mem|, s.granted, size, ret)
  }

  /** What the methods guarantee about one call, in terms of the live blocks; ret is the pointer returned. */
  ghost predicate Happens(s: State, c: Call, ret: nat, s': State) {
    && s'.Ok() && s'.start == s.start && s'.granted == s.granted && |s'.mem| == |s.mem|
    && var live, live' := s.Blocks(), s'.Blocks();
    match c
    case MallocCall(size) =>
          Answered(s, size, ret) && if ret == 0 then live' == live else Allocated(live, ret, size, live')
    case CallocCall(n, size) =>
          && (if Total(n, size) < U32 then Answered(s, Total(n, size), ret) else ret == 0)
          && if ret == 0 then live' == live
             else Allocated(live, ret, Total(n, size), live') && Zeros(Total(n, size)) <= live'[ret]
    case FreeCall(p) => (p == 0 || p in live) && live' == live - {p} && (p != 0 ==> Reusable(s'.cs, |live[p]|))
    case ReallocCall(p, size) =>
          && p in live && (size > |live[p]| ==> Answered(s, size, ret))
          && if size == 0 then ret == 0 && live' == live - {p} else Resized(live, p, size, ret, live')
    case WriteCall(p, o, b) => p in live && o + |b| <= |live[p]| && live' == live[p := Splice(live[p], o, b)]
  }

  ghost predicate Run(states: seq<State>, calls: seq<Call>, rets: seq<nat>) {
    && |states| == |calls| + 1 && |rets| == |calls| && states[0].Ok()
    && forall k :: 0 <= k < |calls| ==> Happens(states[k], calls[k], rets[k], states[k + 1])
  }

  /** The call is about this block. */
  predicate Names(c: Call, p: nat) {
    match c
    case FreeCall(q) => q == p
    case ReallocCall(q, _) => q == p
    case WriteCall(q, _, _) => q == p
    case _ => false
  }

  lemma CallKeeps(s: State, c: Call, ret: nat, s': State, p: nat)
    requires s.Ok() && Happens(s, c, ret, s') && p in s.Blocks() && !Names(c, p)
    ensures p in s'.Blocks() && s'.Blocks()[p] == s.Blocks()[p]
  {
    hide Live, Sound;
  }

  /** In every run a block keeps its bytes, and its place, until a call names it. */
  lemma {:induction false} BlockKept(states: seq<State>, calls: seq<Call>, rets: seq<nat>, i: nat, j: nat, p: nat)
    requires Run(states, calls, rets) && i <= j < |states| && p in states[i].Blocks()
    requires forall k :: i <= k < j ==> !Names(calls[k], p)
    ensures p in states[j].Blocks() && states[j].Blocks()[p] == states[i].Blocks()[p]
    decreases j - i
  {
    hide Happens, Live, Sound;
    if i < j {
      BlockKept(states, calls, rets, i, j - 1, p);
      StateOk(states, calls, rets, j - 1);
      CallKeeps(states[j - 1], calls[j - 1], rets[j - 1], states[j], p);
    }
  }

  lemma StateOk(states: seq<State>, calls: seq<Call>, rets: seq<nat>, k: nat)
    requires Run(states, calls, rets) && k < |states|
    ensures states[k].Ok()
  {
    if k > 0 { assert Happens(states[k - 1], calls[k - 1], rets[k - 1], states[k]); }
  }

  /** No block handed out overlaps one that is still live, at any point of any run. */
  lemma BlocksApart(states: seq<State>, calls: seq<Call>, rets: seq<nat>, k: nat, p: nat, q: nat)
    requires Run(states, calls, rets) && k < |states| && p in states[k].Blocks() && q in states[k].Blocks() && p != q
    ensures var live := states[k].Blocks(); p + |live[p]| + HEADER <= q || q + |live[q]| + HEADER <= p
  {
    hide Happens, Sound, Live;
    StateOk(states, calls, rets, k);
    var s := states[k];
    LiveDisjoint(s.mem, s.cs, s.base, s.start, s.end, p, q);
  }

  /** What a growing realloc returns starts with the old contents, whatever happens to other blocks afterwards. */
  lemma ReallocCarries(states: seq<State>, calls: seq<Call>, rets: seq<nat>, i: nat, j: nat)
    requires Run(states, calls, rets) && i < j < |states| && calls[i].ReallocCall? && calls[i].size != 0 && rets[i] != 0
    requires forall k :: i < k < j ==> !Names(calls[k], rets[i])
    ensures calls[i].p in states[i].Blocks() && rets[i] in states[j].Blocks()
    ensures states[i].Blocks()[calls[i].p] <= states[j].Blocks()[rets[i]]
  {
    hide Live, Sound;
    assert Happens(states[i], calls[i], rets[i], states[i + 1]);
    Carried(states[i].Blocks(), calls[i].p, calls[i].size, rets[i], states[i + 1].Blocks());
    BlockKept(states, calls, rets, i + 1, j, rets[i]);
  }

  lemma Carried(live: map<nat, seq<byte>>, ptr: nat, size: nat, p: nat, live': map<nat, seq<byte>>)
    requires Resized(live, ptr, size, p, live') && p != 0
    ensures ptr in live && p in live' && live[ptr] <= live'[p]
  {
  }

  /** A call the heap may be given: a live block where one is named, and no size within a page of 2^32. */
  ghost predicate Callable(s: State, c: Call) {
    match c
    case MallocCall(size) => NoWrap(size + HEADER, PAGE)
    case CallocCall(n, size) =>
          n < U32 && size < U32 && (Total(n, size) < U32 ==> NoWrap(Total(n, size) + HEADER, PAGE))
    case FreeCall(p) => p == 0 || p in s.Blocks()
    case ReallocCall(p, size) => p in s.Blocks() && NoWrap(size + HEADER, PAGE)
    case WriteCall(p, o, b) => p in s.Blocks() && o + |b| <= |s.Blocks()[p]|
  }

  ghost function Snap(h: KernelHeap): State
    reads h
  {
    State(h.mem, h.cs, h.base, h.start, h.end, h.granted)
  }

  /** The methods do what the steps of a run say. */
  method Perform(h: KernelHeap, c: Call) returns (ret: nat)
    requires h.Valid() && Callable(Snap(h), c)
    modifies h
    ensures h.Valid() && Happens(old(Snap(h)), c, ret, Snap(h))
  {
    hide Sound, Live, Served, Reusable, Allocated, Resized, Total;
    ret := 0;
    match c {
      case MallocCall(size) => ret := h.Malloc(size);
      case CallocCall(n, size) => ret := h.Calloc(n, size);
      case FreeCall(p) =>
        LiveFits(h.mem, h.cs, h.base, h.start, h.end, p);
        h.Free(p);
      case ReallocCall(p, size) =>
        LiveFits(h.mem, h.cs, h.base, h.start, h.end, p);
        ret := h.Realloc(p, size);
      case WriteCall(p, o, b) =>
        LiveFits(h.mem, h.cs, h.base, h.start, h.end, p);
        h.Write(p, o, b);
    }
  }

  /** Live pointers are 32-bit words and not null. */
  lemma LiveFits(mem: seq<byte>, cs: seq<Chunk>, base: nat, start: nat, end: nat, p: nat)
    requires Sound(mem, cs, base, start, end)
    ensures p in Live(mem, cs) ==> 0 < p < U32
  {
    hide Live, Linked, Coalesced;
    if p in Live(mem, cs) { var k := LiveIndex(mem, cs, start, end, p); }
  }

  /** What was freed can be had again, at once and whatever frames are left: the call after a free finds room for as
      much as the freed block held. */
  lemma FreeThenMalloc(states: seq<State>, calls: seq<Call>, rets: seq<nat>, k: nat, p: nat, size: nat)
    requires Run(states, calls, rets) && k + 1 < |calls| && calls[k] == FreeCall(p) && p != 0
    requires calls[k + 1] == MallocCall(size) && p in states[k].Blocks() && 0 < size <= |states[k].Blocks()[p]|
    ensures rets[k + 1] != 0
  {
    hide Live, Sound, Allocated, PagesFor;
    assert Happens(states[k], calls[k], rets[k], states[k + 1]);
    assert Happens(states[k + 1], calls[k + 1], rets[k + 1], states[k + 2]);
    var i :| 0 <= i < |states[k + 1].cs| && Fits(states[k + 1].cs[i], |states[k].Blocks()[p]|);
    FreeAt(states[k + 1].cs, i, size);
  }

  /** In a heap that is refused no frame, malloc fails only where no free chunk and no page below the top is left. */
  lemma GrantedExact(states: seq<State>, calls: seq<Call>, rets: seq<nat>, k: nat, size: u32)
    requires Run(states, calls, rets) && k < |calls| && calls[k] == MallocCall(size) && states[k].granted
    ensures rets[k] != 0 <==> 0 < size && Room(states[k].cs, states[k].end, |states[k].mem|, size)
  {
    hide Live, Sound, Allocated, Reusable, PagesFor;
    assert Happens(states[k], calls[k], rets[k], states[k + 1]);
  }
}
