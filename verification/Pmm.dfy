/** The physical frame allocator: a bitmap of 32-bit words refines a set of used frames. */
module Pmm {
  import opened Machine
  import opened Bits

  const FRAME: nat := 4096
  const ONES: u32 := 0xFFFF_FFFF

  /** test_frame, for a frame number. */
  predicate Marked(words: seq<u32>, f: nat)
    requires f / 32 < |words|
  {
    Bit(words[f / 32], f % 32)
  }

  /** The set the bitmap stands for. */
  ghost function Used(words: seq<u32>): set<nat> {
    set f: nat | f < 32 * |words| && Marked(words, f)
  }

  function Mark(words: seq<u32>, f: nat): (r: seq<u32>)
    requires f < 32 * |words|
    ensures |r| == |words|
  {
    MarkFits(words, f);
    words[f / 32 := SetBit(words[f / 32], f % 32)]
  }

  function Unmark(words: seq<u32>, f: nat): (r: seq<u32>)
    requires f < 32 * |words|
    ensures |r| == |words|
  {
    MarkFits(words, f);
    words[f / 32 := ClearBit(words[f / 32], f % 32)]
  }

  lemma MarkFits(words: seq<u32>, f: nat)
    requires f < 32 * |words|
    ensures SetBit(words[f / 32], f % 32) < U32 && ClearBit(words[f / 32], f % 32) < U32
  {
    Word32();
    InWord(words[f / 32], f % 32, 32);
  }

  /** Setting a bit adds one frame to the set. */
  lemma MarkIs(words: seq<u32>, f: nat)
    requires f < 32 * |words|
    ensures Used(Mark(words, f)) == Used(words) + {f}
  {
    hide Bit, SetBit;
    forall g: nat | g < 32 * |words| ensures Marked(Mark(words, f), g) <==> g == f || Marked(words, g) {
      if g / 32 == f / 32 { BitSet(words[f / 32], f % 32, g % 32); }
    }
  }

  lemma UnmarkIs(words: seq<u32>, f: nat)
    requires f < 32 * |words|
    ensures Used(Unmark(words, f)) == Used(words) - {f}
  {
    hide Bit, ClearBit;
    forall g: nat | g < 32 * |words| ensures Marked(Unmark(words, f), g) <==> g != f && Marked(words, g) {
      if g / 32 == f / 32 { BitCleared(words[f / 32], f % 32, g % 32); }
    }
  }

  /** Every frame below n is used. */
  ghost predicate AllUsed(words: seq<u32>, n: nat) {
    n <= 32 * |words| && forall f: nat | f < n :: Marked(words, f)
  }

  lemma FullWord(words: seq<u32>, i: nat)
    requires i < |words| && words[i] == ONES && AllUsed(words, 32 * i)
    ensures AllUsed(words, 32 * i + 32)
  {
    hide Bit, Pow2;
    Word32();
    forall f: nat | f < 32 * i + 32 ensures Marked(words, f) {
      if f >= 32 * i { AllBits(32, f % 32); }
    }
  }

  /** align_down and align_up to frames, in u32 arithmetic. */
  function Down(a: u32): u32 { a - a % FRAME }

  function Up(a: u32): u32 { Down(Wrap32(a + FRAME - 1)) }

  /** Rounding up covers the address exactly when the sum does not wrap; otherwise it yields 0. */
  lemma UpExact(a: u32)
    ensures if a + FRAME - 1 < U32 then a <= Up(a) < a + FRAME && Up(a) % FRAME == 0 else Up(a) == 0
  {
  }

  /** The frames of the addresses lo, lo + 4096, ... below hi. */
  ghost function Frames(lo: nat, hi: nat): set<nat> {
    set f: nat | f < hi && lo <= f * FRAME < hi
  }

  lemma FramesStep(lo: nat, a: nat)
    requires lo <= a && a % FRAME == 0
    ensures Frames(lo, a + FRAME) == Frames(lo, a) + {a / FRAME} && a / FRAME !in Frames(lo, a)
  {
  }

  lemma FramesEmpty(lo: nat, hi: nat)
    requires hi <= lo
    ensures Frames(lo, hi) == {}
  {
  }

  class FrameAllocator {
    const total: u32
    const bitmap: array<u32>
    var count: u32

    /** frames_used counts the set bits. */
    ghost predicate Valid()
      reads this, bitmap
    {
      total <= 32 * bitmap.Length && bitmap.Length <= 0x8000 && count == |UsedFrames()|
    }

    ghost function UsedFrames(): set<nat>
      reads this, bitmap
    {
      Used(bitmap[..])
    }

    /**
     pmm_init: everything below the end of the bitmap is reserved. The bitmap covers all of memory and lies
     inside it.
     */
    constructor (memSize: u32, kernelEnd: u32)
      requires 0 < memSize && ReservedEnd(memSize, kernelEnd) <= memSize / FRAME * FRAME
      requires kernelEnd + FRAME - 1 < U32
      ensures Valid() && fresh(bitmap) && total == memSize / FRAME
      ensures UsedFrames() == Frames(0, ReservedEnd(memSize, kernelEnd))
    {
      total := memSize / FRAME;
      bitmap := new u32[(memSize / FRAME + 31) / 32](_ => 0);
      count := 0;
      new;
      NothingUsed(bitmap[..]);
      FramesEmpty(0, 0);
      MarkBelow(ReservedEnd(memSize, kernelEnd));
    }

    /** The loop of pmm_init. */
    method MarkBelow(end: nat)
      requires Valid() && UsedFrames() == {} && end <= total * FRAME
      modifies this`count, bitmap
      ensures Valid() && UsedFrames() == Frames(0, end)
    {
      hide Used;
      FramesEmpty(0, 0);
      var addr := 0;
      while addr < end
        invariant 0 <= addr < end + FRAME && addr % FRAME == 0 && Valid() && UsedFrames() == Frames(0, addr)
      {
        FramesStep(0, addr);
        MarkAt(addr / FRAME);
        UsedBound(bitmap[..]);
        count := count + 1;
        addr := addr + FRAME;
      }
      SameFrames(end, addr);
    }

    /** set_frame. */
    method MarkAt(f: nat)
      requires f < 32 * bitmap.Length
      modifies bitmap
      ensures UsedFrames() == old(UsedFrames()) + {f}
    {
      MarkIs(bitmap[..], f);
      MarkFits(bitmap[..], f);
      bitmap[f / 32] := SetBit(bitmap[f / 32], f % 32);
      assert bitmap[..] == Mark(old(bitmap[..]), f);
    }

    /** clear_frame. */
    method UnmarkAt(f: nat)
      requires f < 32 * bitmap.Length
      modifies bitmap
      ensures UsedFrames() == old(UsedFrames()) - {f}
    {
      UnmarkIs(bitmap[..], f);
      MarkFits(bitmap[..], f);
      bitmap[f / 32] := ClearBit(bitmap[f / 32], f % 32);
      assert bitmap[..] == Unmark(old(bitmap[..]), f);
    }

    /** first_free_frame: the lowest free frame, or -1 when all frames of the memory are used. */
    method FirstFree() returns (frame: int)
      requires Valid()
      ensures if frame == -1 then forall f: nat | f < total :: f in UsedFrames()
              else 0 <= frame < total && frame !in UsedFrames() && forall f: nat | f < frame :: f in UsedFrames()
    {
      hide Bit, SetBit;
      var len := (total + 31) / 32;
      var i := 0;
      while i < len
        invariant 0 <= i <= len && AllUsed(bitmap[..], 32 * i)
      {
        if bitmap[i] != ONES {
          var b := 0;
          while b < 32
            invariant 0 <= b <= 32 && AllUsed(bitmap[..], 32 * i + b)
          {
            var f := 32 * i + b;
            InUsed(bitmap[..], f);
            if !Bit(bitmap[i], b) { return if f < total then f else -1; }
            assert Marked(bitmap[..], f);
            b := b + 1;
          }
        } else {
          FullWord(bitmap[..], i);
        }
        i := i + 1;
      }
      InUsed(bitmap[..], total);
      frame := -1;
    }

    /** pmm_alloc_frame: the lowest free frame becomes used, or 0 is returned and nothing changes. */
    method Alloc() returns (addr: u32)
      requires Valid()
      modifies this`count, bitmap
      ensures Valid()
      ensures if forall f: nat | f < total :: f in old(UsedFrames()) then addr == 0 && UsedFrames() == old(UsedFrames())
              else
                && addr % FRAME == 0 && addr / FRAME < total && addr / FRAME !in old(UsedFrames())
                && (forall f: nat | f < addr / FRAME :: f in old(UsedFrames()))
                && UsedFrames() == old(UsedFrames()) + {addr / FRAME}
    {
      hide Used;
      var frame := FirstFree();
      if frame < 0 { return 0; }
      addr := frame * FRAME;
      UsedBound(bitmap[..]);
      MarkAt(frame);
      UsedBound(bitmap[..]);
      count := count + 1;
    }

    /** pmm_free_frame. */
    method Free(addr: u32) returns (r: Errno)
      requires Valid() && addr / FRAME < 32 * bitmap.Length
      modifies this`count, bitmap
      ensures Valid()
      ensures r == if addr % FRAME != 0 then InvalidAlignment
          else if addr / FRAME !in old(UsedFrames()) then InvalidArgument else Success
      ensures UsedFrames() == if r == Success then old(UsedFrames()) - {addr / FRAME} else old(UsedFrames())
    {
      hide Used;
      if addr % FRAME != 0 { return InvalidAlignment; }
      InUsed(bitmap[..], addr / FRAME);
      if !Marked(bitmap[..], addr / FRAME) { return InvalidArgument; }
      UnmarkAt(addr / FRAME);
      if count != 0 { count := count - 1; }
      r := Success;
    }

    method ReserveFrame(f: nat)
      requires Valid() && f < 32 * bitmap.Length
      modifies this`count, bitmap
      ensures Valid() && UsedFrames() == old(UsedFrames()) + {f}
    {
      hide Used;
      InUsed(bitmap[..], f);
      if !Marked(bitmap[..], f) {
        MarkAt(f);
        UsedBound(bitmap[..]);
        count := count + 1;
      }
    }

    method UnreserveFrame(f: nat)
      requires Valid() && f < 32 * bitmap.Length
      modifies this`count, bitmap
      ensures Valid() && UsedFrames() == old(UsedFrames()) - {f}
    {
      hide Used;
      InUsed(bitmap[..], f);
      if Marked(bitmap[..], f) {
        UnmarkAt(f);
        if count != 0 { count := count - 1; }
      }
    }

    /** The loop over frame addresses. */
    method ReserveAll(start: nat, end: nat)
      requires Valid() && start <= end <= 32 * bitmap.Length * FRAME && start % FRAME == 0 && end % FRAME == 0
      modifies this`count, bitmap
      ensures Valid() && UsedFrames() == old(UsedFrames()) + Frames(start, end)
    {
      hide Used, Frames, Valid;
      var a := start;
      FramesEmpty(start, start);
      while a < end
        invariant start <= a <= end && a % FRAME == 0 && Valid() && UsedFrames() == old(UsedFrames()) + Frames(start, a)
      {
        FramesStep(start, a);
        ReserveFrame(a / FRAME);
        a := a + FRAME;
      }
    }

    method UnreserveAll(start: nat, end: nat)
      requires Valid() && start <= end <= 32 * bitmap.Length * FRAME && start % FRAME == 0 && end % FRAME == 0
      modifies this`count, bitmap
      ensures Valid() && UsedFrames() == old(UsedFrames()) - Frames(start, end)
    {
      hide Used, Frames, Valid;
      var a := start;
      FramesEmpty(start, start);
      while a < end
        invariant start <= a <= end && a % FRAME == 0 && Valid() && UsedFrames() == old(UsedFrames()) - Frames(start, a)
      {
        FramesStep(start, a);
        UnreserveFrame(a / FRAME);
        a := a + FRAME;
      }
    }

    /** pmm_reserve_region: the frames the region touches become used, unless rounding its end up wraps. */
    method Reserve(lo: u32, hi: u32) returns (r: Errno)
      requires Valid() && hi <= 32 * bitmap.Length * FRAME
      modifies this`count, bitmap
      ensures Valid()
      ensures r == if lo >= hi then InvalidArgument else Success
      ensures UsedFrames() == old(UsedFrames()) + if r == Success
          && hi + FRAME - 1 < U32 then Frames(Down(lo), hi) else {}
    {
      hide Used, Frames, Up, Down, Valid;
      if lo >= hi { return InvalidArgument; }
      UpExact(hi);
      DownIs(lo);
      var start, end := Down(lo), Up(hi);
      if start < end {
        ReserveAll(start, end);
        RoundedFrames(start, hi, end);
      }
      r := Success;
    }

    /** pmm_unreserve_region, with the same domain. */
    method Unreserve(lo: u32, hi: u32) returns (r: Errno)
      requires Valid() && hi <= 32 * bitmap.Length * FRAME
      modifies this`count, bitmap
      ensures Valid()
      ensures r == if lo >= hi then InvalidArgument else Success
      ensures UsedFrames() == old(UsedFrames()) - if r == Success
          && hi + FRAME - 1 < U32 then Frames(Down(lo), hi) else {}
    {
      hide Used, Frames, Up, Down, Valid;
      if lo >= hi { return InvalidArgument; }
      UpExact(hi);
      DownIs(lo);
      var start, end := Down(lo), Up(hi);
      if start < end {
        UnreserveAll(start, end);
        RoundedFrames(start, hi, end);
      }
      r := Success;
    }
  }

  lemma DownIs(a: u32)
    ensures Down(a) <= a && Down(a) % FRAME == 0
  {
  }

  lemma InUsed(words: seq<u32>, f: nat)
    ensures f < 32 * |words| ==> (f in Used(words) <==> Marked(words, f))
    ensures forall g: nat | g < 32 * |words| :: g in Used(words) <==> Marked(words, g)
  {
  }

  lemma RoundedFrames(lo: nat, hi: nat, end: nat)
    requires hi <= end < hi + FRAME && end % FRAME == 0
    ensures Frames(lo, hi) == Frames(lo, end)
  {
  }

  /** The end of the frame bitmap, which lies behind the kernel. */
  function ReservedEnd(memSize: u32, kernelEnd: u32): nat {
    Up(kernelEnd) + (memSize / FRAME + 31) / 32 * 4
  }

  lemma UsedBound(words: seq<u32>)
    ensures |Used(words)| <= 32 * |words|
  {
    CountBelow(Used(words), 32 * |words|);
  }

  lemma {:induction false} CountBelow(s: set<nat>, n: nat)
    requires forall x :: x in s ==> x < n
    ensures |s| <= n
  {
    if n > 0 {
      CountBelow(s - {n - 1}, n - 1);
    } else {
      assert s == {};
    }
  }

  lemma NothingUsed(words: seq<u32>)
    requires forall i :: 0 <= i < |words| ==> words[i] == 0
    ensures Used(words) == {}
  {
    forall f: nat | f < 32 * |words| ensures !Marked(words, f) { NoBits(f % 32); }
  }

  lemma SameFrames(end: nat, addr: nat)
    requires addr % FRAME == 0 && end <= addr < end + FRAME
    ensures Frames(0, end) == Frames(0, addr)
  {
  }
}
