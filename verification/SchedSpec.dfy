/**
 The scheduler as a step machine: what add, yield, sleep, tick and exit do to the current thread, the run
 queue and the sleep list.
 */
module SchedSpec {
  import opened Machine

  datatype ThreadState = Runnable | Running | Sleeping | Zombie

  /**
   current is 0 before the first dispatch. state holds every live thread, the idle thread among them;
   newborn are the threads created and not yet added.
   */
  datatype Sched = Sched(current: nat, idle: nat, queue: seq<nat>, sleepers: seq<nat>,
                         state: map<nat, ThreadState>, wake: map<nat, nat>, ticks: u32, newborn: set<nat>)

  ghost predicate NoRepeat(s: seq<nat>) { forall i, j :: 0 <= i < j < |s| ==> s[i] != s[j] }

  /** Every thread but idle is where its state says, and nowhere else. */
  ghost predicate Inv(s: Sched) {
    && s.idle in s.state && s.idle != 0 && 0 !in s.state
    && s.idle !in s.queue && s.idle !in s.sleepers && s.idle !in s.newborn
    && (s.current != 0 ==> s.current in s.state && s.state[s.current] == Running)
    && NoRepeat(s.queue) && NoRepeat(s.sleepers)
    && (forall t :: t in s.newborn ==> t in s.state && t !in s.queue)
    && (forall t :: t in s.queue ==> t in s.state)
    && (forall t :: t in s.sleepers ==> t in s.state && t in s.wake)
    && (forall t :: t in s.state && t != s.idle ==> Placed(s, t))
  }

  ghost predicate Placed(s: Sched, t: nat)
    requires t in s.state
  {
    && (s.state[t] == Running <==> t == s.current)
    && (s.state[t] == Runnable <==> t in s.queue || t in s.newborn)
    && (s.state[t] == Sleeping <==> t in s.sleepers)
  }

  /** runqueue_add. */
  function Enqueue(s: Sched, t: nat): Sched {
    if t == 0 || t == s.idle || t in s.queue then s
    else s.(queue := s.queue + [t], state := s.state[t := Runnable], newborn := s.newborn - {t})
  }

  /** runqueue_next: the head of the queue, else idle. */
  function Next(s: Sched): nat { if s.queue == [] then s.idle else s.queue[0] }

  function Pop(s: Sched): Sched { if s.queue == [] then s else s.(queue := s.queue[1..]) }

  ghost function IndexOf(q: seq<nat>, t: nat): (k: nat)
    requires t in q
    ensures k < |q| && q[k] == t
  {
    if q[0] == t then 0 else 1 + IndexOf(q[1..], t)
  }

  /** runqueue_remove. */
  ghost function Dequeue(s: Sched, t: nat): Sched {
    if t in s.queue then s.(queue := s.queue[..IndexOf(s.queue, t)] + s.queue[IndexOf(s.queue, t) + 1..]) else s
  }

  /** Whether ksched_yield puts the current thread back into the queue. */
  predicate Requeues(s: Sched) {
    s.current != 0 && s.current != s.idle && s.current in s.state && s.state[s.current] == Running
  }

  function Requeued(s: Sched): Sched { if Requeues(s) then Enqueue(s, s.current) else s }

  /** ksched_yield. */
  function Yield(s: Sched): Sched {
    var r := Requeued(s);
    var next := Next(r);
    Pop(r).(current := next, state := r.state[next := Running])
  }

  /** sched_sleep. */
  function Sleep(s: Sched, n: u64): Sched {
    if s.current == 0 || s.current == s.idle then s
    else Yield(PutToSleep(s, n))
  }

  predicate Expired(s: Sched, t: nat) { t in s.wake && s.wake[t] <= s.ticks }

  /** The sleepers that are due, and those that are not, in list order. */
  function Due(s: Sched, l: seq<nat>): seq<nat> {
    if l == [] then [] else (if Expired(s, l[0]) then [l[0]] else []) + Due(s, l[1..])
  }

  function NotDue(s: Sched, l: seq<nat>): seq<nat> {
    if l == [] then [] else (if Expired(s, l[0]) then [] else [l[0]]) + NotDue(s, l[1..])
  }

  function EnqueueAll(s: Sched, l: seq<nat>): Sched
    decreases |l|
  {
    if l == [] then s else EnqueueAll(Enqueue(s, l[0]), l[1..])
  }

  /** sched_wake_sleepers. */
  function Wake(s: Sched): Sched {
    EnqueueAll(s.(sleepers := NotDue(s, s.sleepers)), Due(s, s.sleepers))
  }

  /** The tick counter, which wraps. */
  function Clock(s: Sched): Sched { s.(ticks := Wrap32(s.ticks + 1)) }

  /** One timer interrupt. */
  function Tick(s: Sched): Sched { Wake(Clock(s)) }

  /** thread_exit, and the exit system call. */
  function Exit(s: Sched): Sched {
    Yield(if s.current != 0 then s.(state := s.state[s.current := Zombie]) else s)
  }

  /** thread_create. */
  function Create(s: Sched, t: nat): Sched { s.(state := s.state[t := Runnable], newborn := s.newborn + {t}) }

  /** The thread of a reaped process is freed. */
  function Free(s: Sched, t: nat): Sched { s.(state := s.state - {t}) }

  lemma AppendNoRepeat(s: seq<nat>, t: nat)
    requires NoRepeat(s) && t !in s
    ensures NoRepeat(s + [t])
  {
  }

  /** Adding a new thread, or one that is queued already. */
  lemma EnqueueInv(s: Sched, t: nat)
    requires Inv(s) && (t in s.state && t != s.idle ==> s.state[t] == Runnable) && (t != 0 ==> t in s.state)
    ensures Inv(Enqueue(s, t))
  {
    if t != 0 && t != s.idle && t !in s.queue {
      AppendNoRepeat(s.queue, t);
      var s' := Enqueue(s, t);
      forall u | u in s'.state && u != s'.idle ensures Placed(s', u) { assert Placed(s, u); assert Placed(s, t); }
    }
  }

  lemma PopNoRepeat(s: seq<nat>)
    requires NoRepeat(s) && s != []
    ensures NoRepeat(s[1..]) && s[0] !in s[1..]
  {
  }

  /** Dispatching from a state whose current thread has been put away: queued, asleep, or dead. */
  ghost predicate Detached(s: Sched) {
    && s.idle in s.state && s.idle != 0 && 0 !in s.state
    && s.idle !in s.queue && s.idle !in s.sleepers && s.idle !in s.newborn
    && NoRepeat(s.queue) && NoRepeat(s.sleepers)
    && (forall t :: t in s.newborn ==> t in s.state && t !in s.queue)
    && (forall t :: t in s.queue ==> t in s.state)
    && (forall t :: t in s.sleepers ==> t in s.state && t in s.wake)
    && (forall t :: t in s.state && t != s.idle ==>
          && s.state[t] != Running && (s.state[t] == Runnable <==>
                t in s.queue || t in s.newborn) && (s.state[t] == Sleeping <==> t in s.sleepers))
  }

  lemma DispatchInv(s: Sched)
    requires Detached(s)
    ensures Inv(Pop(s).(current := Next(s), state := s.state[Next(s) := Running]))
  {
    var s' := Pop(s).(current := Next(s), state := s.state[Next(s) := Running]);
    if s.queue != [] { PopNoRepeat(s.queue); }
    forall t | t in s'.state && t != s'.idle ensures Placed(s', t) {}
  }

  lemma RequeuedDetached(s: Sched)
    requires Inv(s)
    ensures Detached(Requeued(s))
  {
    forall t | t in s.state && t != s.idle ensures Placed(s, t) {}
    if Requeues(s) {
      assert Placed(s, s.current);
      AppendNoRepeat(s.queue, s.current);
    }
  }

  /** Yield keeps the invariant. */
  lemma YieldInv(s: Sched)
    requires Inv(s)
    ensures Inv(Yield(s)) && Yield(s).current != 0
  {
    hide Inv, Detached;
    RequeuedDetached(s);
    DispatchInv(Requeued(s));
    IdleKnown(s);
  }

  lemma IdleKnown(s: Sched)
    requires Inv(s)
    ensures Yield(s).current != 0
  {
  }

  /** The tick a sleep ends at, in 64-bit arithmetic. */
  function Deadline(ticks: u32, n: u64): u64 { (ticks + if n == 0 then 1 else n) % U64 }

  /** The current thread put on the sleep list. */
  function PutToSleep(s: Sched, n: u64): Sched {
    s.(wake := s.wake[s.current := Deadline(s.ticks, n)], state := s.state[s.current := Sleeping],
       sleepers := [s.current] + s.sleepers)
  }

  lemma PutDetached(s: Sched, n: u64)
    requires Inv(s) && s.current != 0 && s.current != s.idle
    ensures Detached(PutToSleep(s, n)) && !Requeues(PutToSleep(s, n))
  {
    assert Placed(s, s.current);
    forall t | t in s.state && t != s.idle ensures Placed(s, t) {}
  }

  lemma SleepInv(s: Sched, n: u64)
    requires Inv(s)
    ensures Inv(Sleep(s, n))
  {
    hide Inv, Detached;
    if s.current != 0 && s.current != s.idle {
      PutDetached(s, n);
      DispatchInv(PutToSleep(s, n));
    }
  }

  /** The idle thread never exits; any other thread that does is dead and gone from the scheduler. */
  lemma ExitInv(s: Sched)
    requires Inv(s) && s.current != s.idle
    ensures Inv(Exit(s)) && (s.current != 0 ==> s.current in Exit(s).state && Exit(s).state[s.current] == Zombie)
  {
    var put := if s.current != 0 then s.(state := s.state[s.current := Zombie]) else s;
    forall t | t in s.state && t != s.idle ensures Placed(s, t) {}
    assert Detached(put);
    assert Requeued(put) == put;
    DispatchInv(put);
  }

  lemma CreateInv(s: Sched, t: nat)
    requires Inv(s) && t != 0 && t !in s.state && t !in s.queue && t !in s.sleepers
    ensures Inv(Create(s, t))
  {
    var s' := Create(s, t);
    forall u | u in s'.state && u != s'.idle ensures Placed(s', u) { assert u != t ==> Placed(s, u); }
  }

  lemma FreeInv(s: Sched, t: nat)
    requires Inv(s) && t in s.state && t != s.idle && s.state[t] == Zombie
    ensures Inv(Free(s, t)) && t != s.current && t !in s.queue && t !in s.sleepers && t !in s.newborn
  {
    assert Placed(s, t);
    var s' := Free(s, t);
    forall u | u in s'.state && u != s'.idle ensures Placed(s', u) { assert Placed(s, u); }
  }

  /** Half-way through waking: the threads in due have left the sleep list and are not queued yet. */
  ghost predicate Waking(s: Sched, due: seq<nat>) {
    && s.idle in s.state && s.idle != 0 && 0 !in s.state
    && s.idle !in s.queue && s.idle !in s.sleepers && s.idle !in s.newborn
    && (s.current != 0 ==> s.current in s.state && s.state[s.current] == Running)
    && NoRepeat(s.queue) && NoRepeat(s.sleepers) && NoRepeat(due)
    && (forall t :: t in s.newborn ==> t in s.state && t !in s.queue)
    && (forall t :: t in s.queue ==> t in s.state)
    && (forall t :: t in s.sleepers ==> t in s.state && t in s.wake)
    && (forall t :: t in due ==> t in s.state && t != s.idle && t !in s.sleepers && s.state[t] == Sleeping)
    && (forall t :: t in s.state && t != s.idle && t !in due ==> Placed(s, t))
    && (forall t :: t in due ==> t != s.current && t !in s.queue && t !in s.newborn)
  }

  lemma WakeOne(s: Sched, due: seq<nat>)
    requires Waking(s, due) && due != []
    ensures Waking(Enqueue(s, due[0]), due[1..])
    ensures Enqueue(s, due[0]) == s.(queue := s.queue + [due[0]], state := s.state[due[0] := Runnable])
  {
    var t, rest := due[0], due[1..];
    PopNoRepeat(due);
    assert t in due;
    assert s.newborn - {t} == s.newborn;
    var s' := Enqueue(s, t);
    AppendNoRepeat(s.queue, t);
    forall u | u in rest ensures u in due && u != t {}
    forall u | u in s'.state && u != s'.idle && u !in rest
        ensures Placed(s', u) { assert u != t ==> u !in due && Placed(s, u); }
  }

  lemma {:induction false} WakeAll(s: Sched, due: seq<nat>)
    requires Waking(s, due)
    ensures Inv(EnqueueAll(s, due))
    ensures EnqueueAll(s, due).queue == s.queue + due && EnqueueAll(s, due).sleepers == s.sleepers
        && EnqueueAll(s, due).current == s.current
    ensures EnqueueAll(s, due).idle == s.idle && EnqueueAll(s, due).ticks == s.ticks
        && EnqueueAll(s, due).wake == s.wake
    decreases |due|
  {
    hide Waking;
    if due == [] {
      WakingDone(s);
    } else {
      WakeOne(s, due);
      WakeAll(Enqueue(s, due[0]), due[1..]);
      assert s.queue + [due[0]] + due[1..] == s.queue + due;
    }
  }

  lemma WakingDone(s: Sched)
    requires Waking(s, [])
    ensures Inv(s)
  {
  }

  /** Due and NotDue split a list without losing or inventing a thread. */
  lemma {:induction false} Split(s: Sched, l: seq<nat>)
    ensures forall t :: t in Due(s, l) <==> t in l && Expired(s, t)
    ensures forall t :: t in NotDue(s, l) <==> t in l && !Expired(s, t)
    ensures multiset(Due(s, l)) + multiset(NotDue(s, l)) == multiset(l)
  {
    if l != [] {
      Split(s, l[1..]);
      assert l == [l[0]] + l[1..];
    }
  }

  lemma {:induction false} SplitNoRepeat(s: Sched, l: seq<nat>)
    requires NoRepeat(l)
    ensures NoRepeat(Due(s, l)) && NoRepeat(NotDue(s, l))
  {
    if l != [] {
      PopNoRepeat(l);
      SplitNoRepeat(s, l[1..]);
      Split(s, l[1..]);
    }
  }

  /** A tick wakes exactly the sleepers that are due, in list order, behind the queue, and loses no thread. */
  lemma TickWakes(s: Sched)
    requires Inv(s)
    ensures var s0, s' := Clock(s), Tick(s);
            && Inv(s') && s'.current == s.current && s'.idle == s.idle
            && s'.ticks == Wrap32(s.ticks + 1) && s'.wake == s.wake
            && s'.queue == s.queue + Due(s0, s.sleepers) && s'.sleepers == NotDue(s0, s.sleepers)
            && multiset(s'.queue) + multiset(s'.sleepers) == multiset(s.queue) + multiset(s.sleepers)
  {
    hide Inv, Waking, Due, NotDue, EnqueueAll;
    var s0 := Clock(s);
    var due := Due(s0, s.sleepers);
    var s1 := s0.(sleepers := NotDue(s0, s.sleepers));
    Split(s0, s.sleepers);
    WakingStart(s, s0, s1, due);
    WakeAll(s1, due);
    assert multiset(s.queue + due) == multiset(s.queue) + multiset(due);
  }

  lemma WakingStart(s: Sched, s0: Sched, s1: Sched, due: seq<nat>)
    requires Inv(s) && s0 == Clock(s) && due == Due(s0, s.sleepers)
        && s1 == s0.(sleepers := NotDue(s0, s.sleepers))
    ensures Waking(s1, due)
  {
    hide Due, NotDue;
    Split(s0, s.sleepers);
    SplitNoRepeat(s0, s.sleepers);
    forall t | t in s.state && t != s.idle ensures Placed(s, t) {}
  }

  lemma {:induction false} EnqueueAllMore(s: Sched, l: seq<nat>, t: nat)
    ensures EnqueueAll(s, l + [t]) == Enqueue(EnqueueAll(s, l), t)
    decreases |l|
  {
    if l == [] {
      assert [t][1..] == [];
    } else {
      assert (l + [t])[1..] == l[1..] + [t];
      EnqueueAllMore(Enqueue(s, l[0]), l[1..], t);
    }
  }

  /** Queueing does not look at the sleep list. */
  lemma {:induction false} EnqueueAllSleepers(s: Sched, l: seq<nat>, x: seq<nat>)
    ensures EnqueueAll(s.(sleepers := x), l) == EnqueueAll(s, l).(sleepers := x)
    decreases |l|
  {
    if l != [] { EnqueueAllSleepers(Enqueue(s, l[0]), l[1..], x); }
  }

  lemma {:induction false} EnqueueAllFields(s: Sched, l: seq<nat>)
    ensures var r := EnqueueAll(s, l);
          r.sleepers == s.sleepers && r.ticks == s.ticks && r.wake == s.wake && r.current == s.current
          && r.idle == s.idle
    ensures s.state.Keys <= EnqueueAll(s, l).state.Keys
    decreases |l|
  {
    if l != [] { EnqueueAllFields(Enqueue(s, l[0]), l[1..]); }
  }

  lemma {:induction false} DueMore(s: Sched, l: seq<nat>, t: nat)
    ensures Due(s, l + [t]) == Due(s, l) + (if Expired(s, t) then [t] else [])
    ensures NotDue(s, l + [t]) == NotDue(s, l) + (if Expired(s, t) then [] else [t])
  {
    if l == [] {
      assert [t][1..] == [];
    } else {
      assert (l + [t])[1..] == l[1..] + [t];
      DueMore(s, l[1..], t);
    }
  }
}
