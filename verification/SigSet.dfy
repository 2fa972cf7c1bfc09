/** sigset_t: two 32-bit words refine a set of signal numbers from 1 to 64. */
module SigSet {
  import opened Machine
  import opened Bits

  const SIG_MIN: int := 1
  const SIG_MAX: int := 64
  const RT_MIN: int := 34

  predicate IsSignal(sig: int) { SIG_MIN <= sig <= SIG_MAX }

  predicate IsRealtime(sig: int) { RT_MIN <= sig <= SIG_MAX }

  datatype Words = Words(lo: u32, hi: u32) {
    function At(i: nat): u32
      requires i < 2
    {
      if i == 0 then lo else hi
    }

    function Put(i: nat, w: u32): Words
      requires i < 2
    {
      if i == 0 then this.(lo := w) else this.(hi := w)
    }
  }

  /** sigismember. */
  predicate Has(s: Words, sig: int) {
    IsSignal(sig) && Bit(s.At((sig - 1) / 32), (sig - 1) % 32)
  }

  ghost function Members(s: Words): set<int> {
    set sig | SIG_MIN <= sig <= SIG_MAX && Has(s, sig)
  }

  lemma WordFits(w: u32, b: nat)
    requires b < 32
    ensures SetBit(w, b) < U32 && ClearBit(w, b) < U32
  {
    Word32();
    InWord(w, b, 32);
  }

  /** sigemptyset and sigfillset. */
  function Empty(): Words { Words(0, 0) }

  function Full(): Words { Words(U32 - 1, U32 - 1) }

  /** sigaddset. */
  function Add(s: Words, sig: int): Words {
    if !IsSignal(sig) then s
    else
      var i, b := (sig - 1) / 32, (sig - 1) % 32;
      WordFits(s.At(i), b);
      s.Put(i, SetBit(s.At(i), b))
  }

  /** sigdelset. */
  function Del(s: Words, sig: int): Words {
    if !IsSignal(sig) then s
    else
      var i, b := (sig - 1) / 32, (sig - 1) % 32;
      WordFits(s.At(i), b);
      s.Put(i, ClearBit(s.At(i), b))
  }

  lemma EmptyIs()
    ensures Members(Empty()) == {}
  {
    forall sig | IsSignal(sig) ensures !Has(Empty(), sig) { NoBits((sig - 1) % 32); }
  }

  lemma FullIs()
    ensures forall sig :: sig in Members(Full()) <==> IsSignal(sig)
  {
    hide Bit, Pow2;
    Word32();
    forall sig | IsSignal(sig) ensures Has(Full(), sig) { AllBits(32, (sig - 1) % 32); }
  }

  lemma AddIs(s: Words, sig: int)
    ensures Members(Add(s, sig)) == Members(s) + if IsSignal(sig) then {sig} else {}
  {
    hide Bit, SetBit;
    if IsSignal(sig) {
      forall k | IsSignal(k) ensures Has(Add(s, sig), k) <==> k == sig || Has(s, k) {
        BitSet(s.At((sig - 1) / 32), (sig - 1) % 32, (k - 1) % 32);
      }
    }
  }

  lemma DelIs(s: Words, sig: int)
    ensures Members(Del(s, sig)) == Members(s) - {sig}
  {
    hide Bit, ClearBit;
    if IsSignal(sig) {
      forall k | IsSignal(k) ensures Has(Del(s, sig), k) <==> k != sig && Has(s, k) {
        BitCleared(s.At((sig - 1) / 32), (sig - 1) % 32, (k - 1) % 32);
      }
    }
  }

  /** The word loops of signal_block and signal_unblock. */
  function Union(s: Words, t: Words): Words {
    Word32();
    OrInWord(s.lo, t.lo, 32);
    OrInWord(s.hi, t.hi, 32);
    Words(Or(s.lo, t.lo, 32), Or(s.hi, t.hi, 32))
  }

  function Minus(s: Words, t: Words): Words {
    Word32();
    OrInWord(s.lo, t.lo, 32);
    OrInWord(s.hi, t.hi, 32);
    Words(AndNot(s.lo, t.lo, 32), AndNot(s.hi, t.hi, 32))
  }

  lemma UnionIs(s: Words, t: Words)
    ensures Members(Union(s, t)) == Members(s) + Members(t)
  {
    hide Bit, Or;
    forall k | IsSignal(k) ensures Has(Union(s, t), k) <==> Has(s, k) || Has(t, k) {
      BitOr(s.At((k - 1) / 32), t.At((k - 1) / 32), 32, (k - 1) % 32);
    }
  }

  lemma MinusIs(s: Words, t: Words)
    ensures Members(Minus(s, t)) == Members(s) - Members(t)
  {
    hide Bit, AndNot;
    forall k | IsSignal(k) ensures Has(Minus(s, t), k) <==> Has(s, k) && !Has(t, k) {
      BitAndNot(s.At((k - 1) / 32), t.At((k - 1) / 32), 32, (k - 1) % 32);
    }
  }
}
