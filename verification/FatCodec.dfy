/**
 The packed FAT entries of the three variants, on the bytes of one FAT copy. Put is what the source's
 set functions write, Get what its get functions read; all three variants refine one map from
 cluster number to entry.
 */
module FatCodec {
  import opened Machine
  import opened FatLayout

  ghost predicate InTable(ty: FatType, fat: seq<byte>, i: nat) {
    EntryOffset(ty, i) + EntryWidth(ty) <= |fat|
  }

  /** Values an entry of the given width can hold. */
  predicate Fits(ty: FatType, v: nat) { v <= EocMarker(ty) }

  function Get(ty: FatType, fat: seq<byte>, i: nat): nat
    requires InTable(ty, fat, i)
  {
    var o := EntryOffset(ty, i);
    match ty
    case Fat12 => if i % 2 == 1 then Le16(fat, o) / 16 else Le16(fat, o) % 0x1000
    case Fat16 => Le16(fat, o)
    case Fat32 => Le32(fat, o) % 0x1000_0000
  }

  /** The four bits of a FAT32 entry that no entry value uses. */
  function Reserved(fat: seq<byte>, i: nat): nat
    requires InTable(Fat32, fat, i)
  {
    Le32(fat, EntryOffset(Fat32, i)) / 0x1000_0000
  }

  /** The 16-bit word fat12_set leaves where an entry and half of its neighbour lie. */
  function Merge12(was: u16, odd: bool, v: nat): (w: u16)
    ensures odd ==> w / 16 == v % 0x1000 && w % 16 == was % 16
    ensures !odd ==> w % 0x1000 == v % 0x1000 && w / 0x1000 == was / 0x1000
  {
    if odd then was % 16 + v % 0x1000 * 16 else was / 0x1000 * 0x1000 + v % 0x1000
  }

  /** The 32-bit word fat32_set stores: 28 bits of value below the old top four bits. */
  function Join32(v: nat, top: byte): (w: u32)
    ensures w % 0x1000_0000 == v % 0x1000_0000 && w / 0x1000_0000 == top / 16
  {
    v % 0x1000_0000 + top / 16 * 0x1000_0000
  }

  /** The bytes set stores over the entry's old bytes. */
  function Encoded(ty: FatType, fat: seq<byte>, i: nat, v: nat): (b: seq<byte>)
    requires InTable(ty, fat, i)
    ensures |b| == EntryWidth(ty)
  {
    var o := EntryOffset(ty, i);
    match ty
    case Fat12 => Bytes16(Merge12(Le16(fat, o), i % 2 == 1, v))
    case Fat16 => Bytes16(v % 0x1_0000)
    case Fat32 => Bytes32(Join32(v, fat[o + 3]))
  }

  function Put(ty: FatType, fat: seq<byte>, i: nat, v: nat): (r: seq<byte>)
    requires InTable(ty, fat, i)
    ensures |r| == |fat|
  {
    Splice(fat, EntryOffset(ty, i), Encoded(ty, fat, i, v))
  }

  /** Little-endian fields read the bytes a splice just wrote, or those it did not reach. */
  lemma SpliceLe16(s: seq<byte>, o: nat, p: seq<byte>, q: nat)
    requires o + |p| <= |s| && q + 2 <= |s|
    ensures q == o && |p| == 2 ==> Le16(Splice(s, o, p), q) == Le16(p, 0)
    ensures q + 2 <= o || o + |p| <= q ==> Le16(Splice(s, o, p), q) == Le16(s, q)
  {
  }

  lemma SpliceLe32(s: seq<byte>, o: nat, p: seq<byte>, q: nat)
    requires o + |p| <= |s| && q + 4 <= |s|
    ensures q == o && |p| == 4 ==> Le32(Splice(s, o, p), q) == Le32(p, 0)
    ensures q + 4 <= o || o + |p| <= q ==> Le32(Splice(s, o, p), q) == Le32(s, q)
  {
    var r := Splice(s, o, p);
    if q == o && |p| == 4 {
      assert r[q] == p[0] && r[q + 1] == p[1] && r[q + 2] == p[2] && r[q + 3] == p[3];
    } else if q + 4 <= o || o + |p| <= q {
      assert r[q] == s[q] && r[q + 1] == s[q + 1] && r[q + 2] == s[q + 2] && r[q + 3] == s[q + 3];
    }
  }

  lemma GetPutSame12(fat: seq<byte>, i: nat, v: nat)
    requires InTable(Fat12, fat, i) && Fits(Fat12, v)
    ensures Get(Fat12, Put(Fat12, fat, i, v), i) == v
  {
    var o, e := EntryOffset(Fat12, i), Encoded(Fat12, fat, i, v);
    SpliceLe16(fat, o, e, o);
    assert Le16(e, 0) == Merge12(Le16(fat, o), i % 2 == 1, v);
  }

  lemma GetPutSame32(fat: seq<byte>, i: nat, v: nat)
    requires InTable(Fat32, fat, i) && Fits(Fat32, v)
    ensures Get(Fat32, Put(Fat32, fat, i, v), i) == v
  {
    var o, e := EntryOffset(Fat32, i), Encoded(Fat32, fat, i, v);
    SpliceLe32(fat, o, e, o);
    assert Le32(e, 0) == Join32(v, fat[o + 3]);
  }

  /** Reading back the entry just written. */
  lemma GetPutSame(ty: FatType, fat: seq<byte>, i: nat, v: nat)
    requires InTable(ty, fat, i) && Fits(ty, v)
    ensures Get(ty, Put(ty, fat, i, v), i) == v
  {
    match ty
    case Fat12 => GetPutSame12(fat, i, v);
    case Fat16 => SpliceLe16(fat, i * 2, Bytes16(v), i * 2);
    case Fat32 => GetPutSame32(fat, i, v);
  }

  /** A FAT12 entry and its successor share the middle byte of a three-byte pair. */
  lemma NeighbourKept(fat: seq<byte>, i: nat, v: nat, j: nat)
    requires InTable(Fat12, fat, i) && InTable(Fat12, fat, j)
    requires (j == i + 1 && i % 2 == 0) || (i == j + 1 && j % 2 == 0)
    ensures Get(Fat12, Put(Fat12, fat, i, v), j) == Get(Fat12, fat, j)
  {
    var o, p := EntryOffset(Fat12, i), EntryOffset(Fat12, j);
    var e := Encoded(Fat12, fat, i, v);
    var r := Put(Fat12, fat, i, v);
    assert r[o] == e[0] && r[o + 1] == e[1];
    assert Le16(e, 0) == Merge12(Le16(fat, o), i % 2 == 1, v);
    if i < j {
      assert p == o + 1 && r[p + 1] == fat[p + 1];
      HighNibble(fat[o], fat[o + 1], e[0], e[1]);
      assert r[p] / 16 == fat[p] / 16;
      TopOfWord(r[p], r[p + 1]);
      TopOfWord(fat[p], fat[p + 1]);
    } else {
      assert o == p + 1 && r[p] == fat[p];
      LowNibble(fat[o], fat[o + 1], e[0], e[1]);
      assert r[p + 1] % 16 == fat[p + 1] % 16;
      BottomOfWord(r[p], r[p + 1]);
      BottomOfWord(fat[p], fat[p + 1]);
    }
  }

  lemma HighNibble(a: byte, b: byte, c: byte, d: byte)
    requires (a as int + 0x100 * b as int) / 0x1000 == (c as int + 0x100 * d as int) / 0x1000
    ensures b / 16 == d / 16
  {
  }

  lemma LowNibble(a: byte, b: byte, c: byte, d: byte)
    requires (a as int + 0x100 * b as int) % 16 == (c as int + 0x100 * d as int) % 16
    ensures a % 16 == c % 16
  {
  }

  lemma TopOfWord(a: byte, b: byte)
    ensures (a as int + 0x100 * b as int) / 16 == a as int / 16 + 16 * b as int
  {
  }

  lemma BottomOfWord(a: byte, b: byte)
    ensures (a as int + 0x100 * b as int) % 0x1000 == a as int + 0x100 * (b as int % 16)
  {
  }

  /** Writing one entry leaves every other one alone, also a FAT12 neighbour sharing a byte. */
  lemma GetPutOther(ty: FatType, fat: seq<byte>, i: nat, v: nat, j: nat)
    requires InTable(ty, fat, i) && InTable(ty, fat, j) && i != j
    ensures Get(ty, Put(ty, fat, i, v), j) == Get(ty, fat, j)
  {
    var o, p := EntryOffset(ty, i), EntryOffset(ty, j);
    match ty
    case Fat12 =>
      if (j == i + 1 && i % 2 == 0) || (i == j + 1 && j % 2 == 0) {
        NeighbourKept(fat, i, v, j);
      } else {
        SpliceLe16(fat, o, Encoded(ty, fat, i, v), p);
      }
    case Fat16 => SpliceLe16(fat, o, Encoded(ty, fat, i, v), p);
    case Fat32 => SpliceLe32(fat, o, Encoded(ty, fat, i, v), p);
  }

  /** FAT32 keeps the reserved top bits of every entry, the one written included. */
  lemma PutKeepsReserved(fat: seq<byte>, i: nat, v: nat, j: nat)
    requires InTable(Fat32, fat, i) && InTable(Fat32, fat, j)
    ensures Reserved(Put(Fat32, fat, i, v), j) == Reserved(fat, j)
  {
    var o := EntryOffset(Fat32, i);
    var e := Encoded(Fat32, fat, i, v);
    SpliceLe32(fat, o, e, EntryOffset(Fat32, j));
    if i == j {
      TopNibble(fat, o);
      assert Le32(e, 0) == Join32(v, fat[o + 3]);
    }
  }

  lemma TopNibble(fat: seq<byte>, o: nat)
    requires o + 4 <= |fat|
    ensures Le32(fat, o) / 0x1000_0000 == fat[o + 3] / 16
  {
    assert Le32(fat, o) == (Le16(fat, o) as int + 0x1_0000 * fat[o + 2] as int) + 0x100_0000 * fat[o + 3] as int;
  }

  /** The whole table as the map every variant refines. */
  function Table(ty: FatType, fat: seq<byte>, n: nat): (t: seq<nat>)
    requires forall i: nat | i < n :: InTable(ty, fat, i)
    ensures |t| == n
  {
    seq(n, i requires 0 <= i < n => Get(ty, fat, i))
  }

  /** Set is map update: one key changes, all other keys keep their value. */
  lemma PutIsUpdate(ty: FatType, fat: seq<byte>, n: nat, i: nat, v: nat)
    requires forall k: nat | k < n :: InTable(ty, fat, k)
    requires i < n && Fits(ty, v)
    ensures forall k: nat | k < n :: InTable(ty, Put(ty, fat, i, v), k)
    ensures Table(ty, Put(ty, fat, i, v), n) == Table(ty, fat, n)[i := v]
  {
    var r := Put(ty, fat, i, v);
    forall k: nat | k < n ensures InTable(ty, r, k) {
      assert InTable(ty, fat, k);
    }
    GetPutSame(ty, fat, i, v);
    forall j: nat | j < n && j != i
      ensures InTable(ty, fat, j) && Get(ty, Put(ty, fat, i, v), j) == Get(ty, fat, j)
    {
      assert InTable(ty, fat, j);
      GetPutOther(ty, fat, i, v, j);
    }
  }
}
