/** The real-time signal queue: a pool of 64 entries, moved between a used list and a free list over the same links. */
module Rtq {
  import opened Machine
  import opened Links
  import opened SigSet

  const CAPACITY: nat := 64
  const USED: nat := 1
  const FREE: nat := 2
  const POOL: nat := 3
  const CELLS: nat := 67

  /** Return values: -EINVAL and -ENOENT are positive here, because the codes are negative already. */
  const OK: int := 0
  const INVALID: int := 2
  const NO_ENTRY: int := 40
  const BUSY: int := -7

  datatype Info = Info(signo: int, errno: int, code: int, addr: nat, status: int)

  const NO_INFO := Info(0, 0, 0, 0, 0)

  /** A queued signal. */
  datatype Item = Item(sig: int, info: Info)

  /** The two lists hold pool entries, none of them twice, 64 in all. */
  ghost predicate Sides(used: seq<nat>, free: seq<nat>) {
    && (forall i: nat | i < |used| :: POOL <= used[i] < CELLS && used[i] !in free)
    && (forall i: nat | i < |free| :: POOL <= free[i] < CELLS && free[i] !in used)
    && (forall i, j ::
          0 <= i < j < |used| ==> used[i] != used[j]) && (forall i, j :: 0 <= i < j < |free| ==> free[i] != free[j])
    && |used| + |free| == CAPACITY
  }

  /** Both lists are well linked, and together they hold every pool entry once. */
  ghost predicate Partition(c: Cells, used: seq<nat>, free: seq<nat>) {
    |c.prev| == |c.next| == CELLS && Ring(c, USED, used) && Ring(c, FREE, free) && Sides(used, free)
  }

  lemma PartitionMeans(c: Cells, used: seq<nat>, free: seq<nat>)
    requires Partition(c, used, free)
    ensures |c.prev| == |c.next| == CELLS && |used| + |free| == CAPACITY
    ensures c.next[USED] == (if used == [] then USED else
          used[0]) && c.next[FREE] == (if free == [] then FREE else free[0])
    ensures used != [] ==> POOL <= used[0] < CELLS
    ensures free != [] ==> POOL <= free[0] < CELLS && free[0] !in used
  {
    RingCells(c, USED, used);
    RingCells(c, FREE, free);
  }

  lemma RingHeads(c: Cells, h: nat, q: seq<nat>)
    requires Ring(c, h, q)
    ensures InCells(c, h) && InCells(c, c.prev[h]) && InCells(c, c.next[h])
  {
    RingCells(c, h, q);
  }

  lemma MoveToUsed(used: seq<nat>, free: seq<nat>)
    requires Sides(used, free) && free != []
    ensures Sides(used + [free[0]], free[1..])
  {
    var x, used', free' := free[0], used + [free[0]], free[1..];
    forall i: nat | i < |free'| ensures free'[i] !in used' && free'[i] != x { assert free'[i] == free[i + 1]; }
  }

  lemma MoveToFree(used: seq<nat>, free: seq<nat>)
    requires Sides(used, free) && used != []
    ensures Sides(used[1..], [used[0]] + free)
  {
    var x, used', free' := used[0], used[1..], [used[0]] + free;
    forall i: nat | i < |used'| ensures used'[i] !in free' && used'[i] != x { assert used'[i] == used[i + 1]; }
  }

  /** Changes to cells outside a list leave it alone. */
  lemma ListFramed(c: Cells, c': Cells, h: nat, q: seq<nat>, touched: seq<nat>, head: nat, x: nat)
    requires Ring(c, h, q) && |c'.prev| == |c.prev| && |c'.next| == |c.next| && h != head && h !in touched && h != x
    requires forall i: nat | i < |q| :: q[i] != head && q[i] !in touched && q[i] != x
    requires forall y: nat ::
          InCells(c, y) && y !in touched && y != head && y != x ==> c'.next[y] == c.next[y] && c'.prev[y] == c.prev[y]
    ensures Ring(c', h, q)
  {
    hide Ring;
    RingFramed(c, c', h, q);
  }

  /** An entry moves from the front of the free list to the end of the used list. */
  lemma EnqueueStep(c: Cells, used: seq<nat>, free: seq<nat>)
    requires Partition(c, used, free) && free != []
    ensures InCells(c, free[0]) && InCells(c, c.prev[free[0]]) && InCells(c, c.next[free[0]])
    ensures var c1 := Remove(c, free[0]);
            && InCells(c1, USED) && InCells(c1, free[0]) && InCells(c1, c1.prev[USED])
            && Partition(Before(c1, USED, free[0]), used + [free[0]], free[1..])
  {
    hide Ring, Remove, Before, Sides;
    var x := free[0];
    RemoveTakes(c, FREE, free, 0);
    assert free[..0] + free[1..] == free[1..];
    var c1 := Remove(c, x);
    Around(used, free);
    ListFramed(c, c1, USED, used, free, FREE, x);
    RingHeads(c1, USED, used);
    BeforeAppends(c1, USED, used, x);
    var c2 := Before(c1, USED, x);
    ListFramed(c1, c2, FREE, free[1..], used, USED, x);
    MoveToUsed(used, free);
  }

  /** What the framing steps need of the two lists. */
  lemma Around(used: seq<nat>, free: seq<nat>)
    requires Sides(used, free)
    ensures USED !in used && FREE !in used && USED !in free && FREE !in free
    ensures (forall i: nat | i < |used| ::
          used[i] != FREE && used[i] !in free) && (forall i: nat | i < |free| :: free[i] != USED && free[i] !in used)
    ensures free != [] ==>
          free[0] != USED && free[0] != FREE && free[0] !in used && (forall i: nat | i < |used| :: used[i] != free[0])
    ensures free != [] ==>
          forall i: nat | i < |free[1..]| :: free[1..][i] != USED && free[1..][i] !in used && free[1..][i] != free[0]
    ensures used != [] ==>
          used[0] != USED && used[0] != FREE && used[0] !in free && (forall i: nat | i < |free| :: free[i] != used[0])
    ensures used != [] ==>
          forall i: nat | i < |used[1..]| :: used[1..][i] != FREE && used[1..][i] !in free && used[1..][i] != used[0]
  {
  }

  /** An entry moves from the front of the used list to the front of the free list. */
  lemma DequeueStep(c: Cells, used: seq<nat>, free: seq<nat>)
    requires Partition(c, used, free) && used != []
    ensures InCells(c, used[0]) && InCells(c, c.prev[used[0]]) && InCells(c, c.next[used[0]])
    ensures var c1 := Remove(c, used[0]);
            && InCells(c1, FREE) && InCells(c1, used[0]) && InCells(c1, c1.next[FREE])
            && Partition(After(c1, FREE, used[0]), used[1..], [used[0]] + free)
  {
    hide Ring, Remove, After, Sides;
    var x := used[0];
    RemoveTakes(c, USED, used, 0);
    assert used[..0] + used[1..] == used[1..];
    var c1 := Remove(c, x);
    Around(used, free);
    ListFramed(c, c1, FREE, free, used, USED, x);
    RingHeads(c1, FREE, free);
    AfterPrepends(c1, FREE, free, x);
    var c2 := After(c1, FREE, x);
    ListFramed(c1, c2, USED, used[1..], free, FREE, x);
    MoveToFree(used, free);
  }

  /** The signals queued, oldest first. */
  ghost function Items(sig: seq<int>, info: seq<Info>, used: seq<nat>): (r: seq<Item>)
    requires |sig| == |info| == CELLS && InPool(used)
    ensures |r| == |used|
  {
    seq(|used|, i requires 0 <= i < |used| => Item(sig[used[i]], info[used[i]]))
  }

  ghost predicate InPool(s: seq<nat>) { forall i: nat | i < |s| :: s[i] < CELLS }

  class Queue {
    var cells: Cells
    var sig: seq<int>
    var info: seq<Info>
    var count: nat
    ghost var used: seq<nat>
    ghost var free: seq<nat>

    /** rtq_init: all 64 entries free. */
    constructor ()
      ensures Valid() && Contents() == []
    {
      var c := Cells(seq(CELLS, _ => 0), seq(CELLS, _ => 0));
      var i := 0;
      c := Links.Init(Links.Init(c, USED), FREE);
      ghost var pool: seq<nat> := [];
      while i < CAPACITY
        invariant 0 <= i <= CAPACITY && |c.prev| == |c.next| == CELLS && pool == Pushed(i)
        invariant Ring(c, USED, []) && Ring(c, FREE, pool)
      {
        PushEntry(c, i);
        c := Links.Init(c, POOL + i);
        RingHeads(c, FREE, pool);
        c := After(c, FREE, POOL + i);
        pool := [POOL + i] + pool;
        i := i + 1;
      }
      PushedSides();
      cells := c;
      sig, info := seq(CELLS, _ => 0), seq(CELLS, _ => NO_INFO);
      count, used, free := 0, [], pool;
    }

    ghost predicate Valid()
      reads this
    {
      && Partition(cells, used, free) && |sig| == |info| == CELLS && count == |used|
      && forall i: nat | i < |used| :: used[i] < CELLS && IsSignal(sig[used[i]])
    }

    ghost function Contents(): seq<Item>
      reads this
      requires Valid()
    {
      UsedInPool(cells, used, free);
      Items(sig, info, used)
    }

    /** rtq_is_empty. */
    method IsEmpty() returns (b: bool)
      requires Valid()
      ensures b <==> Contents() == []
    {
      hide Partition;
      PartitionMeans(cells, used, free);
      b := cells.next[USED] == USED;
    }

    /** rtq_is_full: exactly when 64 signals wait. */
    method IsFull() returns (b: bool)
      requires Valid()
      ensures b <==> |Contents()| == CAPACITY
    {
      hide Partition;
      PartitionMeans(cells, used, free);
      b := cells.next[FREE] == FREE;
    }

    /** rtq_enqueue: behind all others, or nothing. */
    method Enqueue(signal: int, i: Option<Info>) returns (r: int)
      requires Valid()
      modifies this
      ensures Valid()
      ensures r == if !IsSignal(signal) then INVALID else if |old(Contents())| == CAPACITY then BUSY else OK
      ensures r != OK ==> Contents() == old(Contents())
      ensures r == OK ==>
            Contents() == old(Contents()) + [Item(signal, if i.Some? then i.value else NO_INFO.(signo := signal))]
    {
      hide Partition, Items, Remove, Before;
      if !IsSignal(signal) { return INVALID; }
      PartitionMeans(cells, used, free);
      var full := IsFull();
      if full { return BUSY; }
      var x := cells.next[FREE];
      EnqueueStep(cells, used, free);
      var payload := if i.Some? then i.value else NO_INFO.(signo := signal);
      UsedInPool(cells, used, free);
      ItemsAppended(sig, info, used, x, signal, payload);
      cells := Remove(cells, x);
      sig, info := sig[x := signal], info[x := payload];
      cells := Before(cells, USED, x);
      used, free := used + [x], free[1..];
      count := count + 1;
      r := OK;
    }

    /** rtq_dequeue: the oldest signal. */
    method Dequeue() returns (r: int, signal: int, i: Info)
      requires Valid()
      modifies this
      ensures Valid()
      ensures r == if old(Contents()) == [] then NO_ENTRY else OK
      ensures r != OK ==> Contents() == old(Contents())
      ensures r == OK ==> Contents() == old(Contents())[1..] && Item(signal, i) == old(Contents())[0]
    {
      hide Partition, Items, Remove, After;
      signal, i := 0, NO_INFO;
      PartitionMeans(cells, used, free);
      var empty := IsEmpty();
      if empty { return NO_ENTRY, signal, i; }
      var x := cells.next[USED];
      DequeueStep(cells, used, free);
      UsedInPool(cells, used, free);
      ItemsTaken(cells, sig, info, used, free);
      signal, i := sig[x], info[x];
      cells := Remove(cells, x);
      sig, info := sig[x := 0], info[x := NO_INFO];
      cells := After(cells, FREE, x);
      used, free := used[1..], [x] + free;
      if count > 0 { count := count - 1; }
      r := OK;
    }

    /** rtq_peek. */
    method Peek() returns (r: int, signal: int, i: Info)
      requires Valid()
      ensures r == if Contents() == [] then NO_ENTRY else OK
      ensures r == OK ==> Item(signal, i) == Contents()[0]
    {
      hide Partition;
      signal, i := 0, NO_INFO;
      PartitionMeans(cells, used, free);
      var empty := IsEmpty();
      if empty { return NO_ENTRY, signal, i; }
      var x := cells.next[USED];
      return OK, sig[x], info[x];
    }
  }

  /** The free list after the first n entries were pushed to its front. */
  ghost function Pushed(n: nat): seq<nat> { seq(n, k requires 0 <= k < n => POOL + n - 1 - k) }

  lemma PushEntry(c: Cells, i: nat)
    requires i < CAPACITY && |c.prev| == |c.next| == CELLS && Ring(c, USED, []) && Ring(c, FREE, Pushed(i))
    ensures var c1 := Links.Init(c, POOL + i);
            && Ring(c1, FREE, Pushed(i)) && InCells(c1, c1.next[FREE]) && Pushed(i + 1) == [POOL + i] + Pushed(i)
            && Ring(After(c1, FREE, POOL + i), FREE, [POOL + i] + Pushed(i))
                && Ring(After(c1, FREE, POOL + i), USED, [])
  {
    hide Ring, After;
    var x, c1 := POOL + i, Links.Init(c, POOL + i);
    forall k: nat | k < |Pushed(i)| ensures Pushed(i)[k] != x && Pushed(i)[k] != USED {}
    RingFramed(c, c1, FREE, Pushed(i));
    RingFramed(c, c1, USED, []);
    AfterPrepends(c1, FREE, Pushed(i), x);
    ListFramed(c1, After(c1, FREE, x), USED, [], Pushed(i), FREE, x);
  }

  lemma PushedSides()
    ensures Sides([], Pushed(CAPACITY))
  {
  }

  lemma UsedInPool(c: Cells, used: seq<nat>, free: seq<nat>)
    requires Partition(c, used, free)
    ensures InPool(used)
  {
  }

  lemma ItemsAppended(sig: seq<int>, info: seq<Info>, used: seq<nat>, x: nat, s: int, i: Info)
    requires |sig| == |info| == CELLS && InPool(used) && x < CELLS && x !in used
    ensures InPool(used + [x]) && Items(sig[x := s], info[x := i], used + [x]) == Items(sig, info, used) + [Item(s, i)]
    ensures forall k: nat | k < |used| :: used[k] < CELLS && sig[x := s][used[k]] == sig[used[k]]
  {
    forall k: nat | k < |used| ensures used[k] != x { assert used[k] in used; }
  }

  lemma ItemsTaken(c: Cells, sig: seq<int>, info: seq<Info>, used: seq<nat>, free: seq<nat>)
    requires Partition(c, used, free) && |sig| == |info| == CELLS && InPool(used) && used != []
    ensures used[0] < CELLS && InPool(used[1..])
    ensures Items(sig[used[0] := 0], info[used[0] := NO_INFO], used[1..]) == Items(sig, info, used)[1..]
    ensures Items(sig, info, used)[0] == Item(sig[used[0]], info[used[0]])
    ensures forall k: nat | k < |used[1..]| ::
          used[1..][k] < CELLS && sig[used[0] := 0][used[1..][k]] == sig[used[k + 1]]
  {
    hide Ring;
    forall k: nat | k < |used| - 1 ensures used[1..][k] != used[0] { assert used[1..][k] == used[k + 1]; }
  }

  /** A successful enqueue or dequeue, as the two methods specify it. */
  datatype Event = In(item: Item) | Out(item: Item)

  ghost predicate Happens(q: seq<Item>, e: Event, q': seq<Item>) {
    match e
    case In(item) => q' == q + [item]
    case Out(item) => q != [] && item == q[0] && q' == q[1..]
  }

  ghost function Ins(events: seq<Event>): seq<Item> {
    if events == [] then [] else
          Ins(events[..|events| - 1]) + if events[|events| - 1].In? then [events[|events| - 1].item] else []
  }

  ghost function Outs(events: seq<Event>): seq<Item> {
    if events == [] then [] else
          Outs(events[..|events| - 1]) + if events[|events| - 1].Out? then [events[|events| - 1].item] else []
  }

  /** In every run signals come out in the order they went in: those delivered, then those waiting, are all that were
      queued. */
  lemma {:induction false} FifoOrder(states: seq<seq<Item>>, events: seq<Event>)
    requires |states| == |events| + 1 && states[0] == []
    requires forall k :: 0 <= k < |events| ==> Happens(states[k], events[k], states[k + 1])
    ensures Outs(events) + states[|events|] == Ins(events)
  {
    var n := |events|;
    if n > 0 {
      FifoOrder(states[..n], events[..n - 1]);
      assert Happens(states[n - 1], events[n - 1], states[n]);
    }
  }
}
