/**
 The bytes a chain carries, and how patching one cluster or extending the chain changes them.
 Positions are split into cluster index and offset by division, as the driver does.
 */
module FatContent {
  import opened Machine
  import opened FatChain

  /** Every cluster of the volume holds cs bytes. */
  ghost predicate Sized(g: Geo, data: seq<seq<byte>>) {
    |data| == g.limit && forall c: nat | g.Cluster(c) :: |data[c]| == g.cs
  }

  ghost predicate InRange(g: Geo, chain: seq<nat>) {
    forall k :: 0 <= k < |chain| ==> g.Cluster(chain[k])
  }

  /** The clusters' bytes, one after another. */
  ghost function Bytes(g: Geo, data: seq<seq<byte>>, chain: seq<nat>): (b: seq<byte>)
    requires Sized(g, data) && InRange(g, chain)
    ensures chain == [] ==> |b| == 0
    ensures chain != [] ==> |b| >= g.cs
  {
    if chain == [] then [] else data[chain[0]] + Bytes(g, data, chain[1..])
  }

  /** A position's cluster index and its offset there. */
  function Index(at: nat, cs: nat): (q: nat)
    requires 0 < cs
    ensures q <= at
  {
    QuotientSmall(at, cs);
    at / cs
  }

  lemma QuotientSmall(at: nat, cs: nat)
    requires 0 < cs
    ensures 0 <= at / cs <= at
  {
    var q := at / cs;
    assert at == q * cs + at % cs;
    Monotone(1, cs, q);
    assert q * cs == cs * q;
  }

  function Offset(at: nat, cs: nat): (r: nat)
    requires 0 < cs
    ensures r < cs
  {
    at % cs
  }

  lemma DivideStep(at: nat, cs: nat)
    requires 0 < cs <= at
    ensures at / cs == (at - cs) / cs + 1 && at % cs == (at - cs) % cs
  {
    Quotient(at - cs, cs, (at - cs) / cs, (at - cs) % cs);
    Quotient(at, cs, (at - cs) / cs + 1, (at - cs) % cs);
  }

  lemma {:induction false} BytesLength(g: Geo, data: seq<seq<byte>>, chain: seq<nat>)
    requires Sized(g, data) && InRange(g, chain)
    ensures |Bytes(g, data, chain)| == |chain| * g.cs
  {
    if chain != [] {
      BytesLength(g, data, chain[1..]);
      assert (|chain| - 1) * g.cs + g.cs == |chain| * g.cs;
    }
  }

  lemma Shifted(a: seq<byte>, b: seq<byte>, s: nat, n: nat)
    requires s + n <= |b|
    ensures (a + b)[|a| + s..|a| + s + n] == b[s..s + n]
  {
  }

  /** A position inside a chain's bytes lies at the quotient's cluster, at the remainder's offset. */
  lemma {:induction false} Locate(g: Geo, data: seq<seq<byte>>, chain: seq<nat>, at: nat)
    requires Sized(g, data) && InRange(g, chain) && 0 < g.cs && at < |Bytes(g, data, chain)|
    ensures at / g.cs < |chain|
    ensures var s := at - at % g.cs;
            0 <= s && s + g.cs <= |Bytes(g, data, chain)|
                && Bytes(g, data, chain)[s..s + g.cs] == data[chain[at / g.cs]]
  {
    hide Bytes;
    BytesHead(g, data, chain);
    var b := Bytes(g, data, chain);
    if at < g.cs {
      Quotient(at, g.cs, 0, at);
      assert b[0..g.cs] == data[chain[0]];
    } else {
      var rest := Bytes(g, data, chain[1..]);
      Locate(g, data, chain[1..], at - g.cs);
      DivideStep(at, g.cs);
      Shifted(data[chain[0]], rest, at - at % g.cs - g.cs, g.cs);
    }
  }

  lemma BytesHead(g: Geo, data: seq<seq<byte>>, chain: seq<nat>)
    requires Sized(g, data) && InRange(g, chain)
    ensures if chain == [] then Bytes(g, data, chain) == []
        else Bytes(g, data, chain) == data[chain[0]] + Bytes(g, data, chain[1..])
  {
  }

  /** Clusters outside the chain do not matter. */
  lemma {:induction false} BytesFramed(g: Geo, data: seq<seq<byte>>, data': seq<seq<byte>>, chain: seq<nat>)
    requires Sized(g, data) && Sized(g, data') && InRange(g, chain)
    requires forall c :: c in chain ==> data'[c] == data[c]
    ensures Bytes(g, data', chain) == Bytes(g, data, chain)
  {
    if chain != [] {
      BytesFramed(g, data, data', chain[1..]);
    }
  }

  /** Patching part of one cluster patches the chain's bytes at the matching position. */
  lemma {:induction false} Patch(g: Geo, data: seq<seq<byte>>, chain: seq<nat>, at: nat, p: seq<byte>)
    requires Sized(g, data) && InRange(g, chain) && Distinct(chain) && 0 < g.cs
    requires at < |Bytes(g, data, chain)| && at % g.cs + |p| <= g.cs
    ensures at / g.cs < |chain| && at + |p| <= |Bytes(g, data, chain)|
    ensures var c := chain[at / g.cs];
            && Sized(g, data[c := Splice(data[c], at % g.cs, p)])
            && Bytes(g, data[c := Splice(data[c], at % g.cs, p)], chain) == Splice(Bytes(g, data, chain), at, p)
  {
    hide Bytes;
    Locate(g, data, chain, at);
    var q, o := at / g.cs, at % g.cs;
    var c := chain[q];
    var data' := data[c := Splice(data[c], o, p)];
    BytesHead(g, data, chain);
    BytesHead(g, data', chain);
    if at < g.cs {
      Quotient(at, g.cs, 0, at);
      BytesFramed(g, data, data', chain[1..]);
      SpliceFront(data[c], Bytes(g, data, chain[1..]), at, p);
    } else {
      DivideStep(at, g.cs);
      Patch(g, data, chain[1..], at - g.cs, p);
      assert chain[1..][q - 1] == c;
      assert data'[chain[0]] == data[chain[0]];
      SpliceBack(data[chain[0]], Bytes(g, data, chain[1..]), at, p);
    }
  }

  lemma SpliceFront(a: seq<byte>, b: seq<byte>, o: nat, p: seq<byte>)
    requires o + |p| <= |a|
    ensures Splice(a + b, o, p) == Splice(a, o, p) + b
  {
  }

  lemma SpliceBack(a: seq<byte>, b: seq<byte>, o: nat, p: seq<byte>)
    requires |a| <= o && o + |p| <= |a| + |b|
    ensures Splice(a + b, o, p) == a + Splice(b, o - |a|, p)
  {
  }

  lemma {:induction false} BytesAppend(g: Geo, data: seq<seq<byte>>, a: seq<nat>, b: seq<nat>)
    requires Sized(g, data) && InRange(g, a) && InRange(g, b)
    ensures InRange(g, a + b)
    ensures Bytes(g, data, a + b) == Bytes(g, data, a) + Bytes(g, data, b)
  {
    if a == [] {
      assert a + b == b;
    } else {
      BytesAppend(g, data, a[1..], b);
      assert (a + b)[1..] == a[1..] + b;
    }
  }

  /** The first clusters of a chain carry the first of its bytes. */
  lemma BytesPrefix(g: Geo, data: seq<seq<byte>>, chain: seq<nat>, k: nat)
    requires Sized(g, data) && InRange(g, chain) && k <= |chain|
    ensures InRange(g, chain[..k]) && Bytes(g, data, chain[..k]) <= Bytes(g, data, chain)
  {
    BytesAppend(g, data, chain[..k], chain[k..]);
    assert chain[..k] + chain[k..] == chain;
  }

  /** Position at which the index-th cluster's bytes start. */
  ghost function Start(g: Geo, data: seq<seq<byte>>, chain: seq<nat>, index: nat): nat
    requires Sized(g, data) && InRange(g, chain) && index <= |chain|
  {
    |Bytes(g, data, chain[..index])|
  }

  lemma StartStep(g: Geo, data: seq<seq<byte>>, chain: seq<nat>, index: nat)
    requires Sized(g, data) && InRange(g, chain) && index < |chain|
    ensures Start(g, data, chain, index + 1) == Start(g, data, chain, index) + g.cs <= |Bytes(g, data, chain)|
    ensures var s := Start(g, data, chain, index); Bytes(g, data, chain)[s..s + g.cs] == data[chain[index]]
  {
    assert chain[..index + 1] == chain[..index] + [chain[index]];
    BytesAppend(g, data, chain[..index], [chain[index]]);
    BytesPrefix(g, data, chain, index + 1);
    assert Bytes(g, data, [chain[index]]) == data[chain[index]];
  }

  /** The quotient's cluster starts at the position minus the remainder. */
  lemma {:induction false} StartOf(g: Geo, data: seq<seq<byte>>, chain: seq<nat>, at: nat)
    requires Sized(g, data) && InRange(g, chain) && 0 < g.cs && at < |Bytes(g, data, chain)|
    ensures at / g.cs < |chain| && Start(g, data, chain, at / g.cs) + at % g.cs == at
  {
    BytesLength(g, data, chain);
    ClustersFor(at + 1, g.cs, |chain|);
    BytesLength(g, data, chain[..at / g.cs]);
    Quotient(at, g.cs, at / g.cs, at % g.cs);
  }

  lemma PrefixTaken(a: seq<byte>, b: seq<byte>, n: nat)
    requires a <= b && n <= |a|
    ensures a[..n] == b[..n]
  {
  }

  /** n bytes need ((n - 1) / cs) + 1 clusters, which is also the rounded-up quotient. */
  lemma ClustersFor(n: nat, cs: nat, len: nat)
    requires 0 < n && 0 < cs
    ensures (n + cs - 1) / cs == (n - 1) / cs + 1
    ensures (n - 1) / cs < len <==> n <= len * cs
  {
    DivideStep(n + cs - 1, cs);
    var q, r := (n - 1) / cs, (n - 1) % cs;
    assert n - 1 == q * cs + r;
    if q < len {
      assert (q + 1) * cs <= len * cs by { Monotone(q + 1, len, cs); }
    } else {
      assert len * cs <= q * cs by { Monotone(len, q, cs); }
    }
  }

  lemma Monotone(a: nat, b: nat, cs: nat)
    requires a <= b
    ensures a * cs <= b * cs
  {
  }
}
