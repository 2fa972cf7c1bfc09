/** Bits of a machine word, by its binary digits. */
module Bits {
  function Pow2(n: nat): (p: nat)
    ensures 0 < p
  {
    if n == 0 then 1 else 2 * Pow2(n - 1)
  }

  /** w & (1 << b) != 0. */
  predicate Bit(w: nat, b: nat)
    decreases b
  {
    if b == 0 then w % 2 == 1 else Bit(w / 2, b - 1)
  }

  /** w | (1 << b). */
  function SetBit(w: nat, b: nat): nat
    decreases b
  {
    if b == 0 then w / 2 * 2 + 1 else w % 2 + 2 * SetBit(w / 2, b - 1)
  }

  /** w & ~(1 << b). */
  function ClearBit(w: nat, b: nat): nat
    decreases b
  {
    if b == 0 then w / 2 * 2 else w % 2 + 2 * ClearBit(w / 2, b - 1)
  }

  lemma {:induction false} BitSet(w: nat, b: nat, c: nat)
    ensures Bit(SetBit(w, b), c) <==> c == b || Bit(w, c)
    decreases b
  {
    if b > 0 && c > 0 { BitSet(w / 2, b - 1, c - 1); }
  }

  lemma {:induction false} BitCleared(w: nat, b: nat, c: nat)
    ensures Bit(ClearBit(w, b), c) <==> c != b && Bit(w, c)
    decreases b
  {
    if b > 0 && c > 0 { BitCleared(w / 2, b - 1, c - 1); }
  }

  /** Setting and clearing stay inside the word. */
  lemma {:induction false} InWord(w: nat, b: nat, n: nat)
    requires w < Pow2(n) && b < n
    ensures SetBit(w, b) < Pow2(n) && ClearBit(w, b) < Pow2(n)
    decreases b
  {
    if b > 0 { InWord(w / 2, b - 1, n - 1); }
  }

  lemma Word32()
    ensures Pow2(32) == 0x1_0000_0000
  {
    assert Pow2(8) == 0x100;
    assert Pow2(16) == 0x1_0000;
    assert Pow2(24) == 0x100_0000;
  }

  lemma {:induction false} NoBits(b: nat)
    ensures !Bit(0, b)
  {
    if b > 0 { NoBits(b - 1); }
  }

  lemma {:induction false} AllBits(n: nat, b: nat)
    requires b < n
    ensures Bit(Pow2(n) - 1, b)
  {
    if b > 0 {
      assert (Pow2(n) - 1) / 2 == Pow2(n - 1) - 1;
      AllBits(n - 1, b - 1);
    }
  }

  /** v | w, on n digits. */
  function Or(v: nat, w: nat, n: nat): nat {
    if n == 0 then 0 else (if v % 2 == 1 || w % 2 == 1 then 1 else 0) + 2 * Or(v / 2, w / 2, n - 1)
  }

  /** v & ~w, on n digits. */
  function AndNot(v: nat, w: nat, n: nat): nat {
    if n == 0 then 0 else (if v % 2 == 1 && w % 2 == 0 then 1 else 0) + 2 * AndNot(v / 2, w / 2, n - 1)
  }

  lemma {:induction false} BitOr(v: nat, w: nat, n: nat, c: nat)
    requires c < n
    ensures Bit(Or(v, w, n), c) <==> Bit(v, c) || Bit(w, c)
  {
    var rest := Or(v / 2, w / 2, n - 1);
    assert Or(v, w, n) / 2 == rest;
    if c > 0 { BitOr(v / 2, w / 2, n - 1, c - 1); }
  }

  lemma {:induction false} BitAndNot(v: nat, w: nat, n: nat, c: nat)
    requires c < n
    ensures Bit(AndNot(v, w, n), c) <==> Bit(v, c) && !Bit(w, c)
  {
    if c > 0 { BitAndNot(v / 2, w / 2, n - 1, c - 1); }
  }

  lemma {:induction false} OrInWord(v: nat, w: nat, n: nat)
    ensures Or(v, w, n) < Pow2(n) && AndNot(v, w, n) < Pow2(n)
  {
    if n > 0 { OrInWord(v / 2, w / 2, n - 1); }
  }
}
