/**
 Cluster chains, as sequences of cluster numbers linked by the table, and the bytes they carry.
 Everything here is about the abstract view; no sector is mentioned.
 */
module FatChain {
  import opened Machine
  import opened FatLayout

  /** What chain reasoning needs of a volume: variant, number of entries, bytes per cluster. */
  datatype Geo = Geo(ty: FatType, limit: nat, cs: nat) {
    ghost predicate Ok() {
      && 0 < cs <= 0x1_0000 && 2 <= limit <= EocMarker(ty)
      && forall i: nat | i < limit :: !IsEoc(ty, i)
    }

    predicate Cluster(c: nat) { 2 <= c < limit }
  }

  ghost predicate Distinct(s: seq<nat>) {
    forall i, j :: 0 <= i < j < |s| ==> s[i] != s[j]
  }

  ghost predicate Disjoint(a: seq<nat>, b: seq<nat>) {
    forall c :: c in a ==> c !in b
  }

  /** Consecutive clusters are linked, the last one carries an end-of-chain marker. */
  ghost predicate Linked(g: Geo, t: seq<nat>, chain: seq<nat>)
    requires |t| == g.limit
  {
    && (forall k :: 0 <= k < |chain| ==> g.Cluster(chain[k]))
    && (forall k :: 0 <= k < |chain| - 1 ==> t[chain[k]] == chain[k + 1])
    && (chain != [] ==> IsEoc(g.ty, t[chain[|chain| - 1]]))
  }

  /** The chain a first-cluster field denotes; 0 denotes the empty chain. */
  ghost predicate IsChain(g: Geo, t: seq<nat>, first: nat, chain: seq<nat>) {
    && |t| == g.limit && Linked(g, t, chain) && Distinct(chain)
    && first == if chain == [] then 0 else chain[0]
  }

  /** Following links is deterministic and stops at a marker, so a linked sequence cannot revisit a cluster. */
  lemma {:induction false} LinkedIsDistinct(g: Geo, t: seq<nat>, chain: seq<nat>)
    requires g.Ok() && |t| == g.limit && Linked(g, t, chain)
    ensures Distinct(chain)
  {
    forall i, j | 0 <= i < j < |chain| ensures chain[i] != chain[j] {
      MeetAtEnd(g, t, chain, i, j);
    }
  }

  lemma {:induction false} MeetAtEnd(g: Geo, t: seq<nat>, chain: seq<nat>, i: nat, j: nat)
    requires g.Ok() && |t| == g.limit && Linked(g, t, chain) && i < j < |chain|
    ensures chain[i] != chain[j]
    decreases |chain| - j
  {
    if j + 1 < |chain| {
      MeetAtEnd(g, t, chain, i + 1, j + 1);
    } else {
      assert t[chain[i]] == chain[i + 1];
    }
  }

  /** A first cluster determines its chain. */
  lemma {:induction false} ChainUnique(g: Geo, t: seq<nat>, a: seq<nat>, b: seq<nat>, k: nat)
    requires g.Ok() && |t| == g.limit && Linked(g, t, a) && Linked(g, t, b)
    requires k < |a| && k < |b| && a[k] == b[k]
    ensures a[k..] == b[k..]
    decreases |a| - k
  {
    assert k + 1 < |a| ==> t[a[k]] == a[k + 1];
    assert k + 1 < |b| ==> t[b[k]] == b[k + 1];
    if k + 1 < |a| && k + 1 < |b| {
      ChainUnique(g, t, a, b, k + 1);
      assert a[k..] == [a[k]] + a[k + 1..] && b[k..] == [b[k]] + b[k + 1..];
    }
  }

  /** Chain members are neither free nor zero-valued. */
  lemma MembersInUse(g: Geo, t: seq<nat>, first: nat, chain: seq<nat>, c: nat)
    requires g.Ok() && IsChain(g, t, first, chain) && c in chain
    ensures g.Cluster(c) && t[c] != 0
  {
    var k :| 0 <= k < |chain| && chain[k] == c;
    assert k < |chain| - 1 ==> t[chain[k]] == chain[k + 1];
    assert !IsEoc(g.ty, 0);
  }

  /** A chain survives any table change outside its own entries. */
  lemma ChainFramed(g: Geo, t: seq<nat>, t': seq<nat>, first: nat, chain: seq<nat>)
    requires IsChain(g, t, first, chain) && |t'| == |t|
    requires forall c :: c in chain ==> 0 <= c < |t| && t'[c] == t[c]
    ensures IsChain(g, t', first, chain)
  {
  }

  /** fat_next_cluster on a chain member walks the chain. */
  lemma NextInChain(g: Geo, t: seq<nat>, first: nat, chain: seq<nat>, k: nat)
    requires g.Ok() && IsChain(g, t, first, chain) && k < |chain|
    ensures g.Cluster(chain[k])
    ensures k + 1 < |chain| ==> t[chain[k]] == chain[k + 1] && !IsEoc(g.ty, chain[k + 1]) && g.Cluster(chain[k + 1])
    ensures k + 1 == |chain| ==> IsEoc(g.ty, t[chain[k]])
  {
  }

  /** Allocating the first cluster of an empty file. */
  lemma ChainStarted(g: Geo, t: seq<nat>, c: nat, eoc: nat)
    requires g.Ok() && |t| == g.limit && g.Cluster(c) && IsEoc(g.ty, eoc)
    ensures IsChain(g, t[c := eoc], c, [c])
  {
  }

  /** Allocating a free cluster and linking it behind the last one. */
  lemma ChainExtended(g: Geo, t: seq<nat>, first: nat, chain: seq<nat>, c: nat, eoc: nat)
    requires g.Ok() && IsChain(g, t, first, chain) && chain != []
    requires g.Cluster(c) && t[c] == 0 && IsEoc(g.ty, eoc)
    ensures c !in chain
    ensures IsChain(g, t[c := eoc][chain[|chain| - 1] := c], first, chain + [c])
  {
    if c in chain { MembersInUse(g, t, first, chain, c); }
    var t', s := t[c := eoc][chain[|chain| - 1] := c], chain + [c];
    forall k | 0 <= k < |s| - 1 ensures t'[s[k]] == s[k + 1] {
      assert s[k] == chain[k];
    }
  }

  /** The table with every listed cluster marked free. */
  ghost function Cleared(t: seq<nat>, gone: seq<nat>): (r: seq<nat>)
    ensures |r| == |t|
  {
    seq(|t|, c requires 0 <= c < |t| => if c in gone then 0 else t[c])
  }

  /** Cutting a chain after its first k clusters and freeing the rest. */
  lemma ChainCut(g: Geo, t: seq<nat>, first: nat, chain: seq<nat>, k: nat, eoc: nat)
    requires g.Ok() && IsChain(g, t, first, chain) && 0 < k <= |chain| && IsEoc(g.ty, eoc)
    ensures IsChain(g, Cleared(t[chain[k - 1] := eoc], chain[k..]), first, chain[..k])
  {
    var t', s := Cleared(t[chain[k - 1] := eoc], chain[k..]), chain[..k];
    forall i | 0 <= i < |s| ensures s[i] !in chain[k..] {
    }
  }

  /** The rest of a chain is itself a chain, also after the cut wrote the marker in front of it. */
  lemma TailIsChain(g: Geo, t: seq<nat>, first: nat, chain: seq<nat>, k: nat, eoc: nat)
    requires g.Ok() && IsChain(g, t, first, chain) && 0 < k <= |chain|
    ensures IsChain(g, t[chain[k - 1] := eoc], if k < |chain| then chain[k] else 0, chain[k..])
  {
    var t', s := t[chain[k - 1] := eoc], chain[k..];
    forall i | 0 <= i < |s| - 1 ensures t'[s[i]] == s[i + 1] {
      assert t[chain[k + i]] == chain[k + i + 1];
    }
    assert s != [] ==> s[|s| - 1] == chain[|chain| - 1];
  }

  /** Walking one step further while freeing: the head is cleared, the tail is still a chain. */
  lemma HeadCleared(g: Geo, t: seq<nat>, first: nat, chain: seq<nat>)
    requires g.Ok() && IsChain(g, t, first, chain) && chain != []
    ensures IsChain(g, t[first := 0], if |chain| > 1 then chain[1] else 0, chain[1..])
    ensures Cleared(t[first := 0], chain[1..]) == Cleared(t, chain)
  {
    var t', s := t[first := 0], chain[1..];
    forall i | 0 <= i < |s| - 1 ensures t'[s[i]] == s[i + 1] {
      assert t[chain[1 + i]] == chain[i + 2];
    }
    assert s != [] ==> s[|s| - 1] == chain[|chain| - 1];
    assert chain == [first] + s;
  }
}
