/**
 Machine-level vocabulary shared by every model: bytes, 32-bit words with explicit
 wrap-around, little-endian fields, the kernel's error codes and sequence splicing.
 */
module Machine {
  type byte = x: int | 0 <= x < 0x100
  type u16 = x: int | 0 <= x < 0x1_0000
  type u32 = x: int | 0 <= x < 0x1_0000_0000

  type u64 = x: int | 0 <= x < 0x1_0000_0000_0000_0000

  const U32: int := 0x1_0000_0000
  const U64: int := 0x1_0000_0000_0000_0000

  /** 32-bit unsigned truncation: what a C assignment to u32 keeps of a value. */
  function Wrap32(x: int): u32 { x % U32 }

  /** Rounding x up to a multiple of unit, by adding unit - 1 first, does not wrap in 32 bits. */
  predicate NoWrap(x: nat, unit: nat) { x + unit - 1 < U32 }

  function Min(a: int, b: int): int { if a < b then a else b }

  function Max(a: int, b: int): int { if a < b then b else a }

  /** The error codes of include/shared/libc/errno.h that the models return. */
  datatype Errno =
    | Success | InvalidArgument | NotSupported | Busy | OutOfMemory | NotFound | AlreadyExists
    | NotDirectory | DirectoryNotEmpty | NoSpaceLeft | NameTooLong | BadFileDescriptor
    | TooManyOpenFiles | IoError | ProcessNotFound | Internal | InvalidAlignment
    | IsADirectory

  datatype Result<+T> = Ok(value: T) | Err(error: Errno)

  datatype Option<+T> = None | Some(value: T)

  function Le16(s: seq<byte>, o: nat): u16
    requires o + 2 <= |s|
  {
    s[o] as int + 0x100 * s[o + 1] as int
  }

  function Le32(s: seq<byte>, o: nat): u32
    requires o + 4 <= |s|
  {
    Le16(s, o) as int + 0x1_0000 * Le16(s, o + 2) as int
  }

  /** The bytes a little-endian store of x writes. */
  function Bytes16(x: u16): (s: seq<byte>)
    ensures |s| == 2 && Le16(s, 0) == x
  {
    [x % 0x100, x / 0x100]
  }

  function Bytes32(x: u32): (s: seq<byte>)
    ensures |s| == 4 && Le32(s, 0) == x
  {
    var s := Bytes16(x % 0x1_0000) + Bytes16(x / 0x1_0000);
    assert Le16(s, 0) == x % 0x1_0000 && Le16(s, 2) == x / 0x1_0000;
    s
  }

  function Zeros(n: nat): (s: seq<byte>)
    ensures |s| == n
  {
    seq(n, _ => 0)
  }

  /** memcpy(s + o, p, |p|). */
  function Splice<T>(s: seq<T>, o: nat, p: seq<T>): (r: seq<T>)
    requires o + |p| <= |s|
    ensures |r| == |s|
    ensures forall k :: 0 <= k < |s| ==> r[k] == if o <= k < o + |p| then p[k - o] else s[k]
  {
    s[..o] + p + s[o + |p|..]
  }

  /** Two adjacent copies are one copy of the joined source. */
  lemma SpliceAdjacent<T>(s: seq<T>, o: nat, p: seq<T>, q: seq<T>)
    requires o + |p| + |q| <= |s|
    ensures Splice(Splice(s, o, p), o + |p|, q) == Splice(s, o, p + q)
  {
  }

  /** Quotient and remainder are the only way to write a number as q * d + r with r < d. */
  lemma Quotient(x: nat, d: nat, q: nat, r: nat)
    requires 0 < d && r < d
    ensures x == q * d + r <==> x / d == q && x % d == r
  {
    if x == q * d + r {
      var e := x / d - q;
      assert x == x / d * d + x % d;
      assert e * d == r - x % d;
      if e != 0 { MulAtLeast(e, d); }
    }
  }

  lemma MulAtLeast(e: int, d: nat)
    requires e != 0 && 0 < d
    ensures e * d >= d || e * d + d <= 0
  {
    if e > 0 {
      assert (e - 1) * d >= 0;
    } else {
      assert (-e - 1) * d >= 0;
    }
  }

  /** Dropping the remainder leaves a multiple. */
  lemma RemainderDropped(x: nat, d: nat)
    requires 0 < d
    ensures x % d < d && (x - x % d) % d == 0 && (x - x % d) / d == x / d
  {
    Quotient(x, d, x / d, x % d);
    Quotient(x - x % d, d, x / d, 0);
  }
}
