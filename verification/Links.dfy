/**
 Intrusive circular lists over link cells: a cell is a number, 0 is the null pointer, and prev and next
 are the cells' fields. A ring is a head cell with the cells of a sequence behind it.
 */
module Links {
  datatype Cells = Cells(prev: seq<nat>, next: seq<nat>)

  ghost predicate InCells(c: Cells, x: nat) { 0 < x < |c.prev| && |c.next| == |c.prev| }

  /** LinkInit. */
  function Init(c: Cells, x: nat): (r: Cells)
    requires InCells(c, x)
    ensures |r.prev| == |c.prev| && |r.next| == |c.next|
  {
    Cells(c.prev[x := x], c.next[x := x])
  }

  /** LinkBefore: x goes in front of a. */
  function Before(c: Cells, a: nat, x: nat): (r: Cells)
    requires InCells(c, a) && InCells(c, x) && InCells(c, c.prev[a])
    ensures |r.prev| == |c.prev| && |r.next| == |c.next|
  {
    var p := c.prev[a];
    Cells(c.prev[a := x][x := p], c.next[x := a][p := x])
  }

  /** LinkAfter: x goes behind a. */
  function After(c: Cells, a: nat, x: nat): (r: Cells)
    requires InCells(c, a) && InCells(c, x) && InCells(c, c.next[a])
    ensures |r.prev| == |c.prev| && |r.next| == |c.next|
  {
    var n := c.next[a];
    Cells(c.prev[n := x][x := a], c.next[x := n][a := x])
  }

  /** LinkRemove: the neighbours are joined, x points nowhere. */
  function Remove(c: Cells, x: nat): (r: Cells)
    requires InCells(c, x) && InCells(c, c.prev[x]) && InCells(c, c.next[x])
    ensures |r.prev| == |c.prev| && |r.next| == |c.next|
  {
    var p, n := c.prev[x], c.next[x];
    Cells(c.prev[n := p][x := 0], c.next[p := n][x := 0])
  }

  /** The i-th cell of the ring, counted from the head, which is also the last. */
  function Node(h: nat, q: seq<nat>, i: nat): nat
    requires i <= |q| + 1
  {
    if 1 <= i <= |q| then q[i - 1] else h
  }

  ghost predicate Linked(c: Cells, h: nat, q: seq<nat>, i: nat)
    requires i <= |q|
  {
    && InCells(c, Node(h, q, i)) && InCells(c, Node(h, q, i + 1))
    && c.next[Node(h, q, i)] == Node(h, q, i + 1) && c.prev[Node(h, q, i + 1)] == Node(h, q, i)
  }

  /** Every pair of neighbours is linked both ways, and no cell occurs twice. */
  ghost predicate Ring(c: Cells, h: nat, q: seq<nat>) {
    && InCells(c, h) && h !in q && (forall i, j :: 0 <= i < j < |q| ==> q[i] != q[j])
    && forall i: nat | i <= |q| :: Linked(c, h, q, i)
  }

  /** An empty list head points at itself. */
  lemma InitIsRing(c: Cells, h: nat)
    requires InCells(c, h)
    ensures Ring(Init(c, h), h, [])
  {
  }

  lemma RingCells(c: Cells, h: nat, q: seq<nat>)
    requires Ring(c, h, q)
    ensures forall x ::
          x in q ==> InCells(c, x) && c.next[x] != x && c.next[x] != 0 && InCells(c, c.next[x]) && InCells(c, c.prev[x])
    ensures c.next[h] == (if q == [] then h else q[0]) && InCells(c, c.next[h])
    ensures c.prev[h] == (if q == [] then h else q[|q| - 1]) && InCells(c, c.prev[h])
  {
    forall x | x in q ensures InCells(c, x) && c.next[x] != x && c.next[x] != 0 && InCells(c, c.next[x])
        && InCells(c, c.prev[x]) {
      var i :| 0 <= i < |q| && q[i] == x;
      assert Linked(c, h, q, i) && Linked(c, h, q, i + 1);
    }
    assert Linked(c, h, q, 0) && Linked(c, h, q, |q|);
  }

  /** LinkBefore the head appends. */
  lemma BeforeAppends(c: Cells, h: nat, q: seq<nat>, x: nat)
    requires Ring(c, h, q) && InCells(c, x) && x != h && x !in q
    ensures InCells(c, c.prev[h]) && Ring(Before(c, h, x), h, q + [x])
    ensures forall y: nat :: InCells(c, y) && y !in q && y != h && y != x ==>
      Before(c, h, x).next[y] == c.next[y] && Before(c, h, x).prev[y] == c.prev[y]
  {
    RingCells(c, h, q);
    var c', q' := Before(c, h, x), q + [x];
    forall i: nat | i <= |q'| ensures Linked(c', h, q', i) {
      assert i <= |q| ==> Linked(c, h, q, i);
    }
  }

  /** LinkAfter the head pushes to the front. */
  lemma AfterPrepends(c: Cells, h: nat, q: seq<nat>, x: nat)
    requires Ring(c, h, q) && InCells(c, x) && x != h && x !in q
    ensures InCells(c, c.next[h]) && Ring(After(c, h, x), h, [x] + q)
    ensures forall y: nat :: InCells(c, y) && y !in q && y != h && y != x ==>
      After(c, h, x).next[y] == c.next[y] && After(c, h, x).prev[y] == c.prev[y]
  {
    RingCells(c, h, q);
    var c', q' := After(c, h, x), [x] + q;
    forall i: nat | i <= |q'| ensures Linked(c', h, q', i) {
      assert i > 0 ==> Linked(c, h, q, i - 1);
    }
  }

  /** A ring none of whose cells changed is still a ring. */
  lemma RingFramed(c: Cells, c': Cells, h: nat, q: seq<nat>)
    requires Ring(c, h, q) && |c'.prev| == |c.prev| && |c'.next| == |c.next|
    requires forall y: nat :: InCells(c, y) && (y in q || y == h) ==> c'.next[y] == c.next[y] && c'.prev[y] == c.prev[y]
    ensures Ring(c', h, q)
  {
    forall i: nat | i <= |q| ensures Linked(c', h, q, i) { assert Linked(c, h, q, i); }
  }

  /** LinkRemove takes out exactly the one cell, wherever it stands. */
  lemma RemoveTakes(c: Cells, h: nat, q: seq<nat>, k: nat)
    requires Ring(c, h, q) && k < |q|
    ensures InCells(c, q[k]) && InCells(c, c.prev[q[k]]) && InCells(c, c.next[q[k]])
    ensures Ring(Remove(c, q[k]), h, q[..k] + q[k + 1..])
    ensures Remove(c, q[k]).next[q[k]] == 0
    ensures forall y: nat :: InCells(c, y) && y !in q && y != h ==>
      Remove(c, q[k]).next[y] == c.next[y] && Remove(c, q[k]).prev[y] == c.prev[y]
  {
    RingCells(c, h, q);
    var x := q[k];
    var c', q' := Remove(c, x), q[..k] + q[k + 1..];
    assert Linked(c, h, q, k) && Linked(c, h, q, k + 1);
    forall i: nat | i <= |q'| ensures Linked(c', h, q', i) {
      RemoveNode(h, q, k, i);
      RemoveNode(h, q, k, i + 1);
      NodesApart(c, h, q, k);
      assert Linked(c, h, q, if i <= k then i else i + 1);
    }
  }

  lemma RemoveNode(h: nat, q: seq<nat>, k: nat, i: nat)
    requires k < |q| && i <= |q|
    ensures Node(h, q[..k] + q[k + 1..], i) == if i <= k then Node(h, q, i) else Node(h, q, i + 1)
  {
  }

  /** The cell taken out is no other node of the ring. */
  lemma NodesApart(c: Cells, h: nat, q: seq<nat>, k: nat)
    requires Ring(c, h, q) && k < |q|
    ensures forall i: nat | i <= |q| + 1 && i != k + 1 :: Node(h, q, i) != q[k]
    ensures forall i: nat, j: nat | i <= |q| && j <= |q| && i != j :: Node(h, q, i) != Node(h, q, j)
  {
  }
}
