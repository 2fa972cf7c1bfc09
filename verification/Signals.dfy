/** signal_add, signal_fetch, signal_block, signal_unblock and signal_has_pending_unmasked. */
module Signals {
  import opened Machine
  import opened SigSet
  import opened Rtq

  /** The signal a fetch would deliver: the oldest real-time signal if unmasked, else the lowest
      unmasked pending one. */
  datatype Delivery = Nothing | FromQueue(item: Item) | FromPending(sig: int)

  /** The lowest signal at or above from that is in p and not in m. */
  function Lowest(p: Words, m: Words, from: int): (r: int)
    requires SIG_MIN <= from <= SIG_MAX + 1
    ensures from <= r <= SIG_MAX + 1 && (r <= SIG_MAX ==> Has(p, r) && !Has(m, r))
    ensures forall k :: from <= k < r ==> !(Has(p, k) && !Has(m, k))
    decreases SIG_MAX + 1 - from
  {
    if from > SIG_MAX || (Has(p, from) && !Has(m, from)) then from else Lowest(p, m, from + 1)
  }

  function Next(mask: Words, pending: Words, queue: seq<Item>): Delivery {
    if queue != [] && !Has(mask, queue[0].sig) then FromQueue(queue[0])
    else
      var s := Lowest(pending, mask, SIG_MIN);
      if s <= SIG_MAX then FromPending(s) else Nothing
  }

  /** The queue's head goes first unless it is masked; then the least pending unmasked signal number, if any. */
  lemma NextIs(mask: Words, pending: Words, queue: seq<Item>)
    requires forall i :: 0 <= i < |queue| ==> IsSignal(queue[i].sig)
    ensures Next(mask, pending, queue).FromQueue? <==> queue != [] && queue[0].sig !in Members(mask)
    ensures match Next(mask, pending, queue)
            case FromQueue(item) => queue != [] && item == queue[0] && item.sig !in Members(mask)
            case FromPending(s) =>
                  s in Members(pending) - Members(mask) && forall k :: k in Members(pending) - Members(mask) ==> s <= k
            case Nothing => Members(pending) <= Members(mask) && (queue != [] ==> queue[0].sig in Members(mask))
  {
    hide Has;
  }

  class SigState {
    var mask: Words
    var pending: Words
    const queue: Queue

    ghost predicate Valid()
      reads this, queue
    {
      queue.Valid()
    }

    /** signal_thread_init. */
    constructor ()
      ensures Valid() && Members(mask) == {} && Members(pending) == {} && queue.Contents() == [] && fresh(queue)
    {
      mask, pending := Empty(), Empty();
      queue := new Queue();
      new;
      EmptyIs();
    }

    /** signal_add: real-time signals are queued, ordinary ones set a bit. */
    method Add(sig: int, info: Option<Info>) returns (r: int)
      requires Valid()
      modifies this`pending, queue
      ensures Valid()
      ensures r == if !IsSignal(sig) then INVALID else
            if IsRealtime(sig) && |old(queue.Contents())| == CAPACITY then BUSY else OK
      ensures Members(pending) == old(Members(pending)) + if r == OK && !IsRealtime(sig) then {sig} else {}
      ensures queue.Contents() ==
        old(queue.Contents()) + if r == OK
            && IsRealtime(sig) then [Item(sig, if info.Some? then info.value else NO_INFO.(signo := sig))] else []
    {
      hide Members, SigSet.Add, Queue.Valid;
      if !IsSignal(sig) { return INVALID; }
      if IsRealtime(sig) {
        r := queue.Enqueue(sig, info);
        return;
      }
      AddIs(pending, sig);
      pending := SigSet.Add(pending, sig);
      r := OK;
    }

    /** signal_block. */
    method Block(set0: Words) returns (r: int)
      modifies this`mask
      ensures r == OK && Members(mask) == old(Members(mask)) + Members(set0)
    {
      UnionIs(mask, set0);
      mask := Union(mask, set0);
      r := OK;
    }

    /** signal_unblock. */
    method Unblock(set0: Words) returns (r: int)
      modifies this`mask
      ensures r == OK && Members(mask) == old(Members(mask)) - Members(set0)
    {
      MinusIs(mask, set0);
      mask := Minus(mask, set0);
      r := OK;
    }

    /** signal_has_pending_unmasked: 1 exactly when a fetch would deliver something. */
    method HasPendingUnmasked() returns (r: int)
      requires Valid()
      ensures r == if Next(mask, pending, queue.Contents()) == Nothing then 0 else 1
    {
      hide Has, Queue.Valid, Queue.Contents;
      var empty := queue.IsEmpty();
      if !empty {
        var rc, sig, _ := queue.Peek();
        if rc == OK && !Has(mask, sig) { return 1; }
      }
      var sig := SIG_MIN;
      while sig <= SIG_MAX
        invariant SIG_MIN <= sig <= SIG_MAX + 1 && Lowest(pending, mask, sig) == Lowest(pending, mask, SIG_MIN)
      {
        if Has(pending, sig) && !Has(mask, sig) { return 1; }
        sig := sig + 1;
      }
      r := 0;
    }

    /** signal_fetch: takes out exactly the signal it delivers. */
    method Fetch() returns (r: int, sig: int, info: Info)
      requires Valid()
      modifies this`pending, queue
      ensures Valid() && mask == old(mask)
      ensures var next := Next(old(mask), old(pending), old(queue.Contents()));
              && r == (if next == Nothing then NO_ENTRY else OK)
              && match next
                 case Nothing => queue.Contents() == old(queue.Contents()) && Members(pending) == Members(old(pending))
                 case FromQueue(item) =>
                       Item(sig, info) == item && queue.Contents() == old(queue.Contents())[1..]
                       && pending == old(pending)
                 case FromPending(s) =>
                       sig == s && info == NO_INFO.(signo := s) && Members(pending) == Members(old(pending)) - {s}
                       && queue.Contents() == old(queue.Contents())
    {
      hide Has, Members, Queue.Valid, Queue.Contents, Del;
      var empty := queue.IsEmpty();
      if !empty {
        var rc, s, _ := queue.Peek();
        if rc == OK && !Has(mask, s) {
          r, sig, info := queue.Dequeue();
          return;
        }
      }
      sig := SIG_MIN;
      while sig <= SIG_MAX
        invariant SIG_MIN <= sig <= SIG_MAX + 1 && Lowest(pending, mask, sig) == Lowest(pending, mask, SIG_MIN)
      {
        if Has(pending, sig) && !Has(mask, sig) {
          DelIs(pending, sig);
          pending := Del(pending, sig);
          return OK, sig, NO_INFO.(signo := sig);
        }
        sig := sig + 1;
      }
      r, info := NO_ENTRY, NO_INFO;
    }
  }
}
