/** The run queue over intrusive links, the sleep list, and ksched_yield, sched_sleep, sched_wake_sleepers. */
module Scheduler {
  import opened Machine
  import opened Links
  import opened SchedSpec

  const HEAD: nat := 1

  /** A singly linked list through next-pointers, ended by null. */
  ghost predicate Chain(next: map<nat, nat>, head: nat, l: seq<nat>) {
    && head == (if l == [] then 0 else l[0])
    && forall i: nat | i < |l| :: Follows(next, l, i)
  }

  ghost predicate Follows(next: map<nat, nat>, l: seq<nat>, i: nat)
    requires i < |l|
  {
    l[i] in next && next[l[i]] == if i + 1 < |l| then l[i + 1] else 0
  }

  /** A thread's own run_link: linked exactly while the thread is queued, otherwise null or pointing at itself. */
  ghost predicate LinkOf(c: Cells, q: seq<nat>, t: nat) {
    HEAD < t && InCells(c, t) && (t !in q ==> c.next[t] == 0 || c.next[t] == t)
  }

  /** The fields represent the abstract state. */
  ghost predicate Represents(c: Cells, sleepHead: nat, nextSleep: map<nat, nat>, wakeup: map<nat, nat>, s: Sched) {
    var represents := Ring(c, HEAD, s.queue) && (forall t :: t in s.state ==> LinkOf(c, s.queue, t))
      && (forall t :: t in s.queue ==> t in s.state)
      && Chain(nextSleep, sleepHead, s.sleepers)
          && (forall t :: t in s.sleepers ==> t in wakeup && t in s.wake && wakeup[t] == s.wake[t]);
    represents
  }

  /** Membership in the queue, read off the link as runqueue_add does. */
  lemma QueuedByLink(c: Cells, sleepHead: nat, nextSleep: map<nat, nat>, wakeup: map<nat, nat>, s: Sched, t: nat)
    requires Represents(c, sleepHead, nextSleep, wakeup, s) && t in s.state
    ensures InCells(c, t) && InCells(c, HEAD) && InCells(c, c.prev[HEAD]) && t != HEAD
    ensures t in s.queue <==> c.next[t] != 0 && c.next[t] != t
  {
    RingCells(c, HEAD, s.queue);
    assert LinkOf(c, s.queue, t);
  }

  lemma AddStep(c: Cells, sleepHead: nat, nextSleep: map<nat, nat>, wakeup: map<nat, nat>, s: Sched, t: nat)
    requires Represents(c, sleepHead, nextSleep, wakeup, s) && t in s.state && t !in s.queue && t != s.idle && t != 0
    ensures InCells(c, t) && InCells(c, HEAD) && InCells(c, c.prev[HEAD])
    ensures var c0 := if c.next[t] == 0 then Init(c, t) else c;
            InCells(c0, HEAD) && InCells(c0, t) && InCells(c0, c0.prev[HEAD])
                && Represents(Before(c0, HEAD, t), sleepHead, nextSleep, wakeup, Enqueue(s, t))
  {
    QueuedByLink(c, sleepHead, nextSleep, wakeup, s, t);
    var c0 := if c.next[t] == 0 then Init(c, t) else c;
    RingInit(c, s.queue, t);
    BeforeAppends(c0, HEAD, s.queue, t);
    forall u | u in s.state ensures LinkOf(Before(c0, HEAD, t), s.queue + [t], u) { assert LinkOf(c, s.queue, u); }
  }

  /** Initialising the link of a thread that is not queued leaves the ring alone. */
  lemma RingInit(c: Cells, q: seq<nat>, t: nat)
    requires Ring(c, HEAD, q) && InCells(c, t) && t != HEAD && t !in q
    ensures Ring(Init(c, t), HEAD, q)
  {
    forall i: nat | i <= |q| ensures Linked(Init(c, t), HEAD, q, i) { assert Linked(c, HEAD, q, i); }
  }

  lemma PopStep(c: Cells, sleepHead: nat, nextSleep: map<nat, nat>, wakeup: map<nat, nat>, s: Sched)
    requires Represents(c, sleepHead, nextSleep, wakeup, s) && s.queue != []
    ensures InCells(c, HEAD) && InCells(c, s.queue[0]) && InCells(c, c.prev[s.queue[0]])
        && InCells(c, c.next[s.queue[0]])
    ensures c.next[HEAD] == s.queue[0] != HEAD
    ensures Represents(Remove(c, s.queue[0]), sleepHead, nextSleep, wakeup, Pop(s))
  {
    hide Ring, Remove, Represents;
    RepresentsMeans(c, sleepHead, nextSleep, wakeup, s);
    HeadIs(c, s.queue);
    RemoveStep(c, sleepHead, nextSleep, wakeup, s, s.queue[0]);
    assert s.queue[..0] + s.queue[1..] == s.queue[1..];
  }

  lemma HeadIs(c: Cells, q: seq<nat>)
    requires Ring(c, HEAD, q) && q != []
    ensures InCells(c, HEAD) && c.next[HEAD] == q[0] != HEAD
  {
    RingCells(c, HEAD, q);
  }

  lemma RepresentsMeans(c: Cells, sleepHead: nat, nextSleep: map<nat, nat>, wakeup: map<nat, nat>, s: Sched)
    requires Represents(c, sleepHead, nextSleep, wakeup, s)
    ensures Ring(c, HEAD, s.queue) && (forall t ::
          t in s.state ==> LinkOf(c, s.queue, t)) && (forall t :: t in s.queue ==> t in s.state)
  {
  }

  lemma NewRing(c: Cells, sleepHead: nat, nextSleep: map<nat, nat>, wakeup: map<nat, nat>, s: Sched, c': Cells,
      q: seq<nat>)
    requires Represents(c, sleepHead, nextSleep, wakeup, s) && (forall t ::
          t in q ==> t in s.queue) && Ring(c', HEAD, q)
    requires forall t :: t in s.state ==> LinkOf(c', q, t)
    ensures Represents(c', sleepHead, nextSleep, wakeup, s.(queue := q))
  {
    hide Ring, Chain, LinkOf;
  }

  /** States may change without touching a link. */
  lemma StateStep(c: Cells, sleepHead: nat, nextSleep: map<nat, nat>, wakeup: map<nat, nat>, s: Sched, s': Sched)
    requires Represents(c, sleepHead, nextSleep, wakeup, s) && s'.queue == s.queue && s'.sleepers == s.sleepers
        && s'.wake == s.wake
    requires s'.state.Keys <= s.state.Keys && (forall t :: t in s'.queue ==> t in s'.state)
    ensures Represents(c, sleepHead, nextSleep, wakeup, s')
  {
  }

  lemma EmptyQueue(c: Cells, sleepHead: nat, nextSleep: map<nat, nat>, wakeup: map<nat, nat>, s: Sched)
    requires Represents(c, sleepHead, nextSleep, wakeup, s)
    ensures InCells(c, HEAD) && (c.next[HEAD] == HEAD <==> s.queue == [])
  {
    RingCells(c, HEAD, s.queue);
  }

  /** Taking the first of rest out of the list kept + rest. */
  lemma ChainCut(next: map<nat, nat>, head: nat, kept: seq<nat>, rest: seq<nat>)
    requires Chain(next, head, kept + rest) && rest != [] && NoRepeat(kept + rest)
    ensures rest[0] in next && next[rest[0]] == (if |rest| > 1 then rest[1] else 0)
    ensures kept == [] ==> head == rest[0]
    ensures kept != [] ==> kept[|kept| - 1] in next && next[kept[|kept| - 1]] == rest[0]
    ensures kept == [] ==> Chain(next[rest[0] := 0], next[rest[0]], rest[1..])
    ensures kept != [] ==> Chain(next[kept[|kept| - 1] := next[rest[0]]][rest[0] := 0], head, kept + rest[1..])
  {
    var l, n := kept + rest, |kept|;
    assert Follows(next, l, n) && (0 < n ==> Follows(next, l, n - 1));
    if kept == [] {
      assert l == rest;
      var next', l' := next[rest[0] := 0], rest[1..];
      forall i: nat | i < |l'| ensures Follows(next', l', i) { assert Follows(next, l, i + 1) && l[i + 1] != l[0]; }
    } else {
      var next', l' := next[kept[n - 1] := next[rest[0]]][rest[0] := 0], kept + rest[1..];
      forall i: nat | i < |l'| ensures Follows(next', l', i) {
        var j := if i < n then i else i + 1;
        assert Follows(next, l, j) && l[j] != l[n] && (i != n - 1 ==> l[j] != l[n - 1]);
      }
    }
  }

  /** The scheduler's globals and the thread fields they lead to. */
  class Kernel {
    var current: nat
    var idle: nat
    var cells: Cells
    var sleepHead: nat
    var nextSleep: map<nat, nat>
    var state: map<nat, ThreadState>
    var wakeup: map<nat, nat>
    var ticks: u32
    ghost var s: Sched

    /** sched_init: an empty queue, nobody asleep, and the idle thread. */
    constructor (idle: nat, cellCount: nat)
      requires HEAD < idle < cellCount
      ensures Valid() && s == Sched(0, idle, [], [], map[idle := Runnable], map[], 0, {})
    {
      current, this.idle := 0, idle;
      var blank := Cells(seq(cellCount, _ => 0), seq(cellCount, _ => 0));
      cells := Init(blank, HEAD);
      sleepHead, nextSleep, wakeup, ticks := 0, map[], map[], 0;
      state := map[idle := Runnable];
      s := Sched(0, idle, [], [], map[idle := Runnable], map[], 0, {});
      new;
      InitIsRing(blank, HEAD);
    }

    ghost predicate Rep()
      reads this
    {
      && Represents(cells, sleepHead, nextSleep, wakeup, s)
      && s.current == current && s.idle == idle && s.state == state && s.ticks == ticks
    }

    ghost predicate Valid()
      reads this
    {
      Rep() && Inv(s)
    }

    /** runqueue_add. */
    method RunqueueAdd(t: nat)
      requires Rep() && (t != 0 ==> t in state)
      modifies this`cells, this`state, this`s
      ensures Rep() && s == Enqueue(old(s), t)
    {
      hide Represents;
      if t == 0 || t == idle { return; }
      QueuedByLink(cells, sleepHead, nextSleep, wakeup, s, t);
      if cells.next[t] != 0 && cells.next[t] != t { return; }
      AddStep(cells, sleepHead, nextSleep, wakeup, s, t);
      if cells.next[t] == 0 { cells := Init(cells, t); }
      state := state[t := Runnable];
      cells := Before(cells, HEAD, t);
      s := Enqueue(s, t);
    }

    /** runqueue_next. */
    method RunqueueNext() returns (next: nat)
      requires Rep()
      modifies this`cells, this`s
      ensures Rep() && next == Next(old(s)) && s == Pop(old(s))
    {
      hide Represents;
      EmptyQueue(cells, sleepHead, nextSleep, wakeup, s);
      if cells.next[HEAD] != HEAD {
        PopStep(cells, sleepHead, nextSleep, wakeup, s);
        next := cells.next[HEAD];
        cells := Remove(cells, next);
        s := Pop(s);
      } else {
        next := idle;
      }
    }

    /** ksched_yield; the context switch itself is the change of current. */
    method DoYield()
      requires Rep() && (current != 0 ==> current in state) && idle in state
      modifies this
      ensures Rep() && s == Yield(old(s))
    {
      hide Represents;
      var cur := current;
      if cur != 0 && cur != idle && state[cur] == Running { RunqueueAdd(cur); }
      ghost var r := s;
      NextKnown(cells, sleepHead, nextSleep, wakeup, r);
      var next := RunqueueNext();
      if next == 0 || next == cur {
        if cur != 0 { state := state[cur := Running]; }
        StateStep(cells, sleepHead, nextSleep, wakeup, s, s.(state := state));
        s := s.(state := state);
        return;
      }
      current := next;
      state := state[next := Running];
      StateStep(cells, sleepHead, nextSleep, wakeup, s, s.(current := next, state := state));
      s := s.(current := next, state := state);
    }

    /** sched_sleep: the thread goes to the front of the sleep list, and the next one runs. */
    method SleepFor(n: u64)
      requires Valid()
      modifies this
      ensures Valid() && s == Sleep(old(s), n)
    {
      hide Represents, Inv;
      SleepInv(s, n);
      CurrentKnown(s);
      var cur := current;
      if cur == 0 || cur == idle { return; }
      SleepStep(cells, sleepHead, nextSleep, wakeup, s, n);
      wakeup := wakeup[cur := Deadline(ticks, n)];
      state := state[cur := Sleeping];
      nextSleep := nextSleep[cur := sleepHead];
      sleepHead := cur;
      s := PutToSleep(s, n);
      DoYield();
    }

    /** ksched_yield, from a state that keeps the invariant. */
    method YieldNow()
      requires Valid()
      modifies this
      ensures Valid() && s == Yield(old(s))
    {
      hide Represents, Inv;
      YieldInv(s);
      CurrentKnown(s);
      DoYield();
    }

    /** thread_exit: the thread is a zombie, and another one runs. */
    method ExitCurrent()
      requires Valid() && current != idle
      modifies this
      ensures Valid() && s == Exit(old(s))
    {
      hide Represents, Inv;
      ExitInv(s);
      CurrentKnown(s);
      if current != 0 {
        state := state[current := Zombie];
        StateStep(cells, sleepHead, nextSleep, wakeup, s, s.(state := state));
        s := s.(state := state);
      }
      DoYield();
    }

    /** sched_add, for a thread that was just created. */
    method AddThread(t: nat)
      requires Valid() && (t != 0 ==> t in state && (t == idle || state[t] == Runnable))
      modifies this
      ensures Valid() && s == Enqueue(old(s), t)
    {
      hide Represents, Inv;
      CurrentKnown(s);
      EnqueueInv(s, t);
      RunqueueAdd(t);
    }

    /** *link, where 0 stands for the list head and a thread for its next_sleep field. */
    function At(link: nat): nat
      reads this
      requires link != 0 ==> link in nextSleep
    {
      if link == 0 then sleepHead else nextSleep[link]
    }

    /** A sleeper that is due leaves the list through the link that leads to it, and is queued. */
    method WakeAt(link: nat, t: nat, ghost kept: seq<nat>, ghost rest: seq<nat>)
      requires Rep() && s.sleepers == kept + rest && rest != [] && NoRepeat(kept + rest) && t == rest[0] && t in state
      requires if link == 0 then kept == [] else kept != [] && link == kept[|kept| - 1]
      modifies this
      ensures Rep() && s == Enqueue(old(s).(sleepers := kept + rest[1..]), t)
      ensures ticks == old(ticks) && forall u :: u in old(state) ==> u in state
    {
      hide Represents, Chain;
      RestStep(cells, sleepHead, nextSleep, wakeup, s, kept, rest);
      RestHead(cells, sleepHead, nextSleep, wakeup, s, kept, rest);
      WakeStep(cells, sleepHead, nextSleep, wakeup, s, kept, rest);
      var after := nextSleep[t];
      if link == 0 { sleepHead := after; } else { nextSleep := nextSleep[link := after]; }
      nextSleep := nextSleep[t := 0];
      wakeup := wakeup[t := 0];
      s := s.(sleepers := kept + rest[1..]);
      RunqueueAdd(t);
    }

    /** sched_wake_sleepers, with its pointer to the link that leads to the current thread. */
    method WakeSleepers()
      requires Rep() && NoRepeat(s.sleepers) && forall t :: t in s.sleepers ==> t in state && t != 0
      modifies this
      ensures Rep() && s == Wake(old(s))
    {
      hide Represents, Walking, Chain, Expired;
      ghost var s0 := s;
      ghost var kept: seq<nat>, rest, done: seq<nat>, woken: seq<nat> := [], s.sleepers, [], [];
      WalkStart(s0);
      WalkList(s0, s, kept, rest, done, woken);
      RestHead(cells, sleepHead, nextSleep, wakeup, s, kept, rest);
      assert forall i :: 0 <= i < |rest| ==> rest[i] in s0.sleepers;
      var link := 0;
      while At(link) != 0
        invariant link != 0 ==> link in nextSleep
        invariant Rep() && ticks == s0.ticks && Walking(s0, s, kept, rest, done, woken)
        invariant if link == 0 then kept == [] else kept != [] && link == kept[|kept| - 1]
        invariant At(link) == if rest == [] then 0 else rest[0]
        invariant forall i :: 0 <= i < |rest| ==> rest[i] in state && rest[i] != 0
        decreases |rest|
      {
        var t := At(link);
        WalkNext(s0, s, kept, rest, done, woken);
        RestStep(cells, sleepHead, nextSleep, wakeup, s, kept, rest);
        Due1(s0, s, t, wakeup[t]);
        if wakeup[t] <= ticks {
          WakeAt(link, t, kept, rest);
          woken := woken + [t];
        } else {
          assert kept + [t] + rest[1..] == kept + rest;
          kept := kept + [t];
          link := t;
        }
        done, rest := done + [t], rest[1..];
        WalkList(s0, s, kept, rest, done, woken);
        RestHead(cells, sleepHead, nextSleep, wakeup, s, kept, rest);
      }
      WalkEnd(s0, s, kept, rest, done, woken);
    }

    /** One timer interrupt. */
    method TimerTick()
      requires Valid()
      modifies this
      ensures Valid() && s == Tick(old(s))
    {
      hide Represents, Inv, Wake, Due, NotDue, Wrap32;
      TickWakes(s);
      SleepersKnown(s);
      ticks := Wrap32(ticks + 1);
      StateStep(cells, sleepHead, nextSleep, wakeup, s, Clock(s));
      s := Clock(s);
      WakeSleepers();
    }

    /** runqueue_remove: out of the queue, if it is there. */
    method RunqueueRemove(t: nat)
      requires Rep() && (t != 0 ==> t in state)
      modifies this`cells, this`s
      ensures Rep() && s == Dequeue(old(s), t)
    {
      hide Represents, Remove;
      if t == 0 {
        NullNotQueued(cells, sleepHead, nextSleep, wakeup, s);
        return;
      }
      QueuedByLink(cells, sleepHead, nextSleep, wakeup, s, t);
      if cells.next[t] == 0 || cells.next[t] == t { return; }
      RemoveStep(cells, sleepHead, nextSleep, wakeup, s, t);
      cells := Remove(cells, t);
      s := Dequeue(s, t);
    }

    /** thread_create: a link that points at itself, runnable, in no list. */
    method NewThread(t: nat)
      requires Valid() && HEAD < t && InCells(cells, t) && t !in state && t !in s.queue && t !in s.sleepers
      modifies this`cells, this`state, this`s
      ensures Valid() && s == Create(old(s), t)
    {
      hide Represents, Inv;
      CreateInv(s, t);
      NewThreadStep(cells, sleepHead, nextSleep, wakeup, s, t);
      cells := Init(cells, t);
      state := state[t := Runnable];
      s := Create(s, t);
    }

    /** The end of a reaped process's thread. */
    method FreeThread(t: nat)
      requires Valid() && t in state && t != idle && state[t] == Zombie
      modifies this
      ensures Valid() && s == SchedSpec.Free(old(s), t)
      ensures t != current && t !in s.queue && t !in s.sleepers
    {
      hide Represents, Inv;
      FreeInv(s, t);
      CurrentKnown(s);
      NotQueuedRemove(s, t);
      RunqueueRemove(t);
      StateStep(cells, sleepHead, nextSleep, wakeup, s, SchedSpec.Free(s, t));
      state := state - {t};
      s := SchedSpec.Free(s, t);
    }
  }

  lemma NotQueuedRemove(s: Sched, t: nat)
    requires t !in s.queue
    ensures Dequeue(s, t) == s
  {
  }

  lemma NullNotQueued(c: Cells, sleepHead: nat, nextSleep: map<nat, nat>, wakeup: map<nat, nat>, s: Sched)
    requires Represents(c, sleepHead, nextSleep, wakeup, s)
    ensures 0 !in s.queue
  {
    RingCells(c, HEAD, s.queue);
  }

  lemma RemoveStep(c: Cells, sleepHead: nat, nextSleep: map<nat, nat>, wakeup: map<nat, nat>, s: Sched, t: nat)
    requires Represents(c, sleepHead, nextSleep, wakeup, s) && t in s.queue
    ensures InCells(c, t) && InCells(c, c.prev[t]) && InCells(c, c.next[t])
    ensures Represents(Remove(c, t), sleepHead, nextSleep, wakeup, Dequeue(s, t))
  {
    hide Ring, Chain, Remove, LinkOf, Represents;
    RepresentsMeans(c, sleepHead, nextSleep, wakeup, s);
    var k := IndexOf(s.queue, t);
    var q := s.queue[..k] + s.queue[k + 1..];
    RemoveTakes(c, HEAD, s.queue, k);
    forall u | u in s.state ensures LinkOf(Remove(c, t), q, u) { RemoveLink(c, s.queue, k, u); }
    forall u | u in q ensures u in s.queue {}
    NewRing(c, sleepHead, nextSleep, wakeup, s, Remove(c, t), q);
  }

  lemma RemoveLink(c: Cells, q: seq<nat>, k: nat, u: nat)
    requires Ring(c, HEAD, q) && k < |q| && LinkOf(c, q, u)
    ensures InCells(c, q[k]) && InCells(c, c.prev[q[k]]) && InCells(c, c.next[q[k]])
    ensures LinkOf(Remove(c, q[k]), q[..k] + q[k + 1..], u)
  {
    hide Ring, Remove;
    RemoveTakes(c, HEAD, q, k);
    assert q == q[..k] + [q[k]] + q[k + 1..];
    assert u in q ==> u == q[k] || u in q[..k] + q[k + 1..];
  }

  lemma NewThreadStep(c: Cells, sleepHead: nat, nextSleep: map<nat, nat>, wakeup: map<nat, nat>, s: Sched, t: nat)
    requires Represents(c, sleepHead, nextSleep, wakeup, s) && HEAD < t && InCells(c, t) && t !in s.queue
    ensures Represents(Init(c, t), sleepHead, nextSleep, wakeup, Create(s, t))
  {
    RingInit(c, s.queue, t);
    forall u | u in s.state || u == t ensures LinkOf(Init(c, t), s.queue, u) { assert u in s.state ==>
          LinkOf(c, s.queue, u); }
  }

  lemma CurrentKnown(s: Sched)
    requires Inv(s)
    ensures (s.current != 0 ==> s.current in s.state) && s.idle in s.state && s.idle != 0 && 0 !in s.state
    ensures forall t :: t in s.queue ==> t in s.state
  {
  }

  lemma SleepersKnown(s: Sched)
    requires Inv(s)
    ensures NoRepeat(s.sleepers) && (forall t ::
          t in s.sleepers ==> t in s.state && t != 0) && forall t :: t in s.queue ==> t in s.state
  {
  }

  lemma SleepStep(c: Cells, sleepHead: nat, nextSleep: map<nat, nat>, wakeup: map<nat, nat>, s: Sched, n: u64)
    requires Represents(c, sleepHead, nextSleep, wakeup, s) && Inv(s) && s.current != 0 && s.current != s.idle
    ensures Represents(c, s.current, nextSleep[s.current := sleepHead],
        wakeup[s.current := Deadline(s.ticks, n)], PutToSleep(s, n))
  {
    hide Ring, LinkOf;
    var cur, next', l' := s.current, nextSleep[s.current := sleepHead], [s.current] + s.sleepers;
    assert Placed(s, cur);
    forall i: nat | i < |l'| ensures Follows(next', l', i) {
      if i > 0 { assert Follows(nextSleep, s.sleepers, i - 1) && s.sleepers[i - 1] in s.sleepers; }
    }
  }

  /** Half-way through the sleep list. */
  ghost predicate Walking(s0: Sched, s: Sched, kept: seq<nat>, rest: seq<nat>, done: seq<nat>, woken: seq<nat>) {
    var walking := NoRepeat(s0.sleepers) && done + rest == s0.sleepers && kept == NotDue(s0, done)
        && woken == Due(s0, done)
      && s == EnqueueAll(s0, woken).(sleepers := kept + rest) && NoRepeat(kept + rest);
    walking
  }

  lemma WalkStart(s0: Sched)
    requires NoRepeat(s0.sleepers)
    ensures Walking(s0, s0, [], s0.sleepers, [], [])
  {
    assert [] + s0.sleepers == s0.sleepers;
  }

  lemma WalkNext(s0: Sched, s: Sched, kept: seq<nat>, rest: seq<nat>, done: seq<nat>, woken: seq<nat>)
    requires Walking(s0, s, kept, rest, done, woken) && rest != []
    ensures s.wake == s0.wake && s.ticks == s0.ticks && s.sleepers == kept + rest && NoRepeat(kept + rest)
    ensures var t := rest[0];
            if Expired(s0, t) then Walking(s0, Enqueue(s.(sleepers := kept + rest[1..]), t), kept, rest[1..],
                done + [t], woken + [t])
            else Walking(s0, s, kept + [t], rest[1..], done + [t], woken)
  {
    hide EnqueueAll, Due, NotDue;
    var t := rest[0];
    DueMore(s0, done, t);
    EnqueueAllMore(s0, woken, t);
    EnqueueAllFields(s0, woken);
    assert done + [t] + rest[1..] == done + rest && kept + [t] + rest[1..] == kept + rest;
    NoRepeatWithout(kept, rest);
  }

  lemma WalkList(s0: Sched, s: Sched, kept: seq<nat>, rest: seq<nat>, done: seq<nat>, woken: seq<nat>)
    requires Walking(s0, s, kept, rest, done, woken)
    ensures s.sleepers == kept + rest && NoRepeat(kept + rest)
  {
  }

  lemma Due1(s0: Sched, s: Sched, t: nat, wakeup: nat)
    requires s.wake == s0.wake && t in s.wake && wakeup == s.wake[t]
    ensures Expired(s0, t) <==> wakeup <= s0.ticks
  {
  }

  lemma NoRepeatWithout(kept: seq<nat>, rest: seq<nat>)
    requires NoRepeat(kept + rest) && rest != []
    ensures NoRepeat(kept + rest[1..])
  {
    var l, l', n := kept + rest, kept + rest[1..], |kept|;
    forall i, j | 0 <= i < j < |l'| ensures l'[i] != l'[j] {
      assert l'[i] == l[if i < n then i else i + 1] && l'[j] == l[if j < n then j else j + 1];
    }
  }

  lemma WalkEnd(s0: Sched, s: Sched, kept: seq<nat>, rest: seq<nat>, done: seq<nat>, woken: seq<nat>)
    requires Walking(s0, s, kept, rest, done, woken) && rest == []
    ensures s == Wake(s0)
  {
    hide EnqueueAll, Due, NotDue;
    assert done + rest == done && kept + rest == kept;
    EnqueueAllSleepers(s0, woken, kept);
  }

  lemma RestHead(c: Cells, sleepHead: nat, nextSleep: map<nat, nat>, wakeup: map<nat, nat>, s: Sched, kept: seq<nat>,
      rest: seq<nat>)
    requires Represents(c, sleepHead, nextSleep, wakeup, s) && s.sleepers == kept + rest
    ensures kept == [] ==> sleepHead == if rest == [] then 0 else rest[0]
    ensures kept != [] ==>
          kept[|kept| - 1] in nextSleep && nextSleep[kept[|kept| - 1]] == if rest == [] then 0 else rest[0]
  {
    hide Ring, LinkOf;
    if kept != [] { assert Follows(nextSleep, s.sleepers, |kept| - 1); }
  }

  lemma RestStep(c: Cells, sleepHead: nat, nextSleep: map<nat, nat>, wakeup: map<nat, nat>, s: Sched, kept: seq<nat>,
      rest: seq<nat>)
    requires Represents(c, sleepHead, nextSleep, wakeup, s) && s.sleepers == kept + rest && rest != []
    ensures rest[0] in wakeup && rest[0] in s.wake && wakeup[rest[0]] == s.wake[rest[0]] && rest[0] in nextSleep
  {
    hide Ring, LinkOf;
    assert s.sleepers[|kept|] == rest[0];
    assert Follows(nextSleep, s.sleepers, |kept|);
  }

  lemma WakeStep(c: Cells, sleepHead: nat, nextSleep: map<nat, nat>, wakeup: map<nat, nat>, s: Sched, kept: seq<nat>,
      rest: seq<nat>)
    requires Represents(c, sleepHead, nextSleep, wakeup, s) && s.sleepers == kept + rest && rest != []
        && NoRepeat(kept + rest)
    ensures rest[0] in nextSleep
    ensures var t, s' := rest[0], s.(sleepers := kept + rest[1..]);
            && (kept == [] ==> Represents(c, nextSleep[t], nextSleep[t := 0], wakeup[t := 0], s'))
            && (kept != [] ==>
                  Represents(c, sleepHead, nextSleep[kept[|kept| - 1] := nextSleep[t]][t := 0], wakeup[t := 0], s'))
  {
    hide Ring, LinkOf, Chain, Represents;
    ChainOf(c, sleepHead, nextSleep, wakeup, s);
    ChainCut(nextSleep, sleepHead, kept, rest);
    var l, l' := kept + rest, kept + rest[1..];
    forall u | u in l' ensures u in l && u != rest[0] {
      NotTheFirst(kept, rest, u);
    }
    if kept == [] {
      assert l' == rest[1..];
      NewChain(c, sleepHead, nextSleep, wakeup, s, nextSleep[rest[0]], nextSleep[rest[0] := 0], wakeup[rest[0] := 0],
          l');
    } else {
      NewChain(c, sleepHead, nextSleep, wakeup, s, sleepHead,
          nextSleep[kept[|kept| - 1] := nextSleep[rest[0]]][rest[0] := 0], wakeup[rest[0] := 0], l');
    }
  }

  lemma ChainOf(c: Cells, sleepHead: nat, nextSleep: map<nat, nat>, wakeup: map<nat, nat>, s: Sched)
    requires Represents(c, sleepHead, nextSleep, wakeup, s)
    ensures Chain(nextSleep, sleepHead, s.sleepers) && forall t ::
          t in s.sleepers ==> t in wakeup && t in s.wake && wakeup[t] == s.wake[t]
  {
  }

  lemma NewChain(c: Cells, sleepHead: nat, nextSleep: map<nat, nat>, wakeup: map<nat, nat>, s: Sched,
                 sleepHead': nat, nextSleep': map<nat, nat>, wakeup': map<nat, nat>, l: seq<nat>)
    requires Represents(c, sleepHead, nextSleep, wakeup, s) && Chain(nextSleep', sleepHead', l)
    requires forall t :: t in l ==> t in wakeup' && t in s.wake && wakeup'[t] == s.wake[t]
    ensures Represents(c, sleepHead', nextSleep', wakeup', s.(sleepers := l))
  {
  }

  lemma NotTheFirst(kept: seq<nat>, rest: seq<nat>, u: nat)
    requires NoRepeat(kept + rest) && rest != [] && u in kept + rest[1..]
    ensures u in kept + rest && u != rest[0]
  {
    var l, l', n := kept + rest, kept + rest[1..], |kept|;
    var i :| 0 <= i < |l'| && l'[i] == u;
    assert l[n] == rest[0] && l[if i < n then i else i + 1] == u;
  }

  lemma NextKnown(c: Cells, sleepHead: nat, nextSleep: map<nat, nat>, wakeup: map<nat, nat>, s: Sched)
    requires Represents(c, sleepHead, nextSleep, wakeup, s) && s.idle in s.state
    ensures Next(s) in s.state && HEAD < Next(s) && forall t :: t in Pop(s).queue ==> t in s.state
  {
    assert LinkOf(c, s.queue, Next(s));
  }
}
