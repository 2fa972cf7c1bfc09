/** Whole runs of the scheduler and the process table: safety, FIFO order and bounded waiting. */
module SchedRun {
  import opened Machine
  import opened SchedSpec
  import opened Procs

  datatype Event =
    | NewThread(t: nat)
    | AddThread(t: nat)
    | YieldEvent
    | SleepEvent(n: u64)
    | TickEvent
    | NewProc
    | AttachEvent(slot: nat, t: nat)
    | ExitEvent(code: int)
    | ReapEvent(pid: int)

  /** What callers respect: a new thread is new, a thread is added once it is created, the idle thread never exits. */
  ghost predicate Enabled(y: Sys, e: Event) {
    match e
    case NewThread(t) => t != 0 && t !in y.sched.state && t !in y.sched.queue && t !in y.sched.sleepers
    case AddThread(t) => t in y.sched.state && (t == y.sched.idle || y.sched.state[t] == Runnable)
    case AttachEvent(i, t) =>
          i < MAX_PROCS && |y.used| == |y.procs| == MAX_PROCS && y.used[i] && y.procs[i].thread == 0
          && t in y.sched.newborn && t !in y.procOf
    case ExitEvent(_) => y.sched.current != y.sched.idle
    case _ => |y.used| == |y.procs| == MAX_PROCS
  }

  ghost function Step(y: Sys, e: Event): Sys
    requires Enabled(y, e)
  {
    match e
    case NewThread(t) => y.(sched := Create(y.sched, t))
    case AddThread(t) => y.(sched := Enqueue(y.sched, t))
    case YieldEvent => y.(sched := Yield(y.sched))
    case SleepEvent(n) => y.(sched := Sleep(y.sched, n))
    case TickEvent => y.(sched := Tick(y.sched))
    case NewProc => CreateProc(y)
    case AttachEvent(i, t) => Attach(y, i, t)
    case ExitEvent(code) => ExitProc(y, code)
    case ReapEvent(pid) => Reap(y, pid)
  }

  lemma StepInv(y: Sys, e: Event)
    requires PInv(y) && Enabled(y, e)
    ensures PInv(Step(y, e))
  {
    hide Inv, Enqueue, Yield, Sleep, Tick, Exit, PInv;
    SchedOk(y);
    match e
    case NewThread(t) => NewThreadInv(y, t);
    case AddThread(t) => EnqueueInv(y.sched, t); EnqueueLives(y.sched, t); LivesInv(y, Enqueue(y.sched, t));
    case YieldEvent => YieldInv(y.sched); YieldLives(y.sched); LivesInv(y, Yield(y.sched));
    case SleepEvent(n) => SleepInv(y.sched, n); SleepLives(y.sched, n); LivesInv(y, Sleep(y.sched, n));
    case TickEvent => TickWakes(y.sched); TickLives(y.sched); LivesInv(y, Tick(y.sched));
    case NewProc => CreateProcInv(y);
    case AttachEvent(i, t) => AttachInv(y, i, t);
    case ExitEvent(code) => ExitProcInv(y, code);
    case ReapEvent(pid) => ReapInv(y, pid);
  }

  lemma SchedOk(y: Sys)
    requires PInv(y)
    ensures Inv(y.sched) && |y.used| == |y.procs| == MAX_PROCS
  {
  }

  ghost predicate Run(states: seq<Sys>, events: seq<Event>) {
    && |states| == |events| + 1 && PInv(states[0])
    && forall k :: 0 <= k < |events| ==> Enabled(states[k], events[k]) && states[k + 1] == Step(states[k], events[k])
  }

  lemma {:induction false} RunInv(states: seq<Sys>, events: seq<Event>, k: nat)
    requires Run(states, events) && k < |states|
    ensures PInv(states[k])
  {
    hide PInv, Step, Enabled;
    if k > 0 {
      RunInv(states, events, k - 1);
      StepInv(states[k - 1], events[k - 1]);
    }
  }

  /**
   In every reachable state each thread is in at most one of current, run queue and sleep list, each list
   holds it once, and a zombie is in none of them.
   */
  lemma RunSafe(states: seq<Sys>, events: seq<Event>, k: nat, t: nat)
    requires Run(states, events) && k < |states| && t in states[k].sched.state && t != states[k].sched.idle
    ensures var s := states[k].sched;
            && NoRepeat(s.queue) && NoRepeat(s.sleepers)
            && !(t == s.current && t in s.queue) && !(t == s.current && t in s.sleepers)
                && !(t in s.queue && t in s.sleepers)
            && (s.state[t] == Zombie ==> t != s.current && t !in s.queue && t !in s.sleepers)
  {
    RunInv(states, events, k);
    assert Placed(states[k].sched, t);
  }

  /** A reap never frees the current thread, a queued one or a sleeping one. */
  lemma RunReapSafe(states: seq<Sys>, events: seq<Event>, k: nat)
    requires Run(states, events) && k < |events| && events[k].ReapEvent?
        && |states[k].used| == |states[k].procs| == MAX_PROCS
    requires ReapResult(states[k], events[k].pid) == Success
    ensures var s, t := states[k].sched, states[k].procs[events[k].pid - 1].thread;
            t != s.current && t !in s.queue && t !in s.sleepers && t in s.state && s.state[t] == Zombie
  {
    RunInv(states, events, k);
    ReapSafe(states[k], events[k].pid);
  }

  /** Once dead, a thread is never dispatched again, until it is reaped. */
  lemma {:induction false} DeadStaysDead(states: seq<Sys>, events: seq<Event>, i: nat, j: nat, t: nat)
    requires Run(states, events) && i <= j < |states| && t in states[i].sched.state && t != states[i].sched.idle
        && states[i].sched.state[t] == Zombie
    requires forall k :: i < k <= j ==> t in states[k].sched.state
    ensures states[j].sched.idle == states[i].sched.idle && t in states[j].sched.state
        && states[j].sched.state[t] == Zombie && t != states[j].sched.current
    decreases j - i
  {
    hide PInv, Step, Enabled;
    RunInv(states, events, j);
    if i < j {
      DeadStaysDead(states, events, i, j - 1, t);
      RunInv(states, events, j - 1);
      StepDead(states[j - 1], events[j - 1], t);
    }
    DeadNotCurrent(states[j], t);
  }

  lemma DeadNotCurrent(y: Sys, t: nat)
    requires PInv(y) && t in y.sched.state && y.sched.state[t] == Zombie && t != y.sched.idle
    ensures t != y.sched.current
  {
    assert Placed(y.sched, t);
  }

  lemma StepDead(y: Sys, e: Event, t: nat)
    requires PInv(y) && Enabled(y, e) && t in y.sched.state && t != y.sched.idle && y.sched.state[t] == Zombie
    ensures Step(y, e).sched.idle == y.sched.idle
        && (t in Step(y, e).sched.state ==> Step(y, e).sched.state[t] == Zombie)
  {
    hide Inv, Yield, Sleep, Tick, Exit, PInv;
    SchedOk(y);
    match e
    case NewThread(_) =>
    case AddThread(u) => EnqueueLives(y.sched, u);
    case YieldEvent => YieldLives(y.sched);
    case SleepEvent(n) => SleepLives(y.sched, n);
    case TickEvent => TickLives(y.sched);
    case ExitEvent(code) => ExitLives(y.sched);
    case _ =>
  }

  /** The steps that dispatch: every call of ksched_yield. */
  predicate Dispatches(y: Sys, e: Event) {
    e.YieldEvent? || e.ExitEvent? || (e.SleepEvent? && y.sched.current != 0 && y.sched.current != y.sched.idle)
  }

  /** A dispatch takes the head of the queue and moves everyone up; any other step leaves them where they stand. */
  lemma QueueStep(y: Sys, e: Event, m: nat)
    requires PInv(y) && Enabled(y, e) && m < |y.sched.queue|
    ensures var s, s' := y.sched, Step(y, e).sched;
            if !Dispatches(y, e) then m < |s'.queue| && s'.queue[m] == s.queue[m]
            else if m == 0 then s'.current == s.queue[0]
            else m - 1 < |s'.queue| && s'.queue[m - 1] == s.queue[m]
  {
    hide Inv, PInv, EnqueueAll, Due, NotDue;
    SchedOk(y);
    if e.TickEvent? { TickWakes(y.sched); }
  }

  /** The number of dispatches among the events from i up to j. */
  ghost function Count(states: seq<Sys>, events: seq<Event>, i: nat, j: nat): nat
    requires |states| == |events| + 1 && i <= j <= |events|
  {
    if i == j then 0 else Count(states, events, i, j - 1) + if Dispatches(states[j - 1], events[j - 1]) then 1 else 0
  }

  /** A thread k places from the head has moved up by one place per dispatch. */
  lemma {:induction false} MovesUp(states: seq<Sys>, events: seq<Event>, i: nat, j: nat, k: nat)
    requires Run(states, events) && i <= j <= |events| && k < |states[i].sched.queue|
        && Count(states, events, i, j) <= k
    ensures k - Count(states, events, i, j) < |states[j].sched.queue|
    ensures states[j].sched.queue[k - Count(states, events, i, j)] == states[i].sched.queue[k]
    decreases j - i
  {
    hide PInv, Step, Enabled;
    if i < j {
      MovesUp(states, events, i, j - 1, k);
      RunInv(states, events, j - 1);
      QueueStep(states[j - 1], events[j - 1], k - Count(states, events, i, j - 1));
    }
  }

  /** First in, first out, with bounded wait: the thread at position k runs at the (k + 1)-th dispatch, whatever is
      added or woken meanwhile. */
  lemma BoundedWait(states: seq<Sys>, events: seq<Event>, i: nat, j: nat, k: nat)
    requires Run(states, events) && i <= j < |events| && k < |states[i].sched.queue|
    requires Count(states, events, i, j) == k && Dispatches(states[j], events[j])
    ensures states[j + 1].sched.current == states[i].sched.queue[k]
  {
    hide PInv, Step, Enabled;
    MovesUp(states, events, i, j, k);
    RunInv(states, events, j);
    QueueStep(states[j], events[j], 0);
  }

  /** The timer interrupts among the events from i up to j. */
  ghost function Ticks(events: seq<Event>, i: nat, j: nat): nat
    requires i <= j <= |events|
  {
    if i == j then 0 else Ticks(events, i, j - 1) + if events[j - 1].TickEvent? then 1 else 0
  }

  /** Nothing but a timer interrupt moves the clock, a deadline or a thread that is asleep. */
  lemma SleeperStays(y: Sys, e: Event, t: nat)
    requires PInv(y) && Enabled(y, e) && !e.TickEvent? && t in y.sched.sleepers
    ensures var s, s' := y.sched, Step(y, e).sched;
            s'.ticks == s.ticks && t in s'.sleepers && t in s.wake && t in s'.wake && s'.wake[t] == s.wake[t]
  {
    assert Placed(y.sched, t);
  }

  /** A timer interrupt moves the clock by one and wakes exactly the sleepers whose tick has come. */
  lemma SleeperTicks(y: Sys, t: nat)
    requires PInv(y) && Enabled(y, TickEvent) && t in y.sched.sleepers
    ensures var s, s' := y.sched, Step(y, TickEvent).sched;
            && s'.ticks == Wrap32(s.ticks + 1) && t in s.wake && t in s'.wake && s'.wake[t] == s.wake[t]
            && (if s.wake[t] <= s'.ticks then t in s'.queue && t !in s'.sleepers else t in s'.sleepers)
  {
    hide Due, NotDue, EnqueueAll;
    TickWakes(y.sched);
    Split(Clock(y.sched), y.sched.sleepers);
    SleeperKnown(y, t);
  }

  lemma SleeperKnown(y: Sys, t: nat)
    requires PInv(y) && t in y.sched.sleepers
    ensures t in y.sched.wake
  {
  }

  /** The current thread goes to sleep with its deadline. */
  lemma FallsAsleep(y: Sys, n: u64)
    requires PInv(y) && Enabled(y, SleepEvent(n)) && y.sched.current != 0 && y.sched.current != y.sched.idle
    ensures var s, s' := y.sched, Step(y, SleepEvent(n)).sched;
            && s'.ticks == s.ticks && s.current in s'.sleepers && s.current in s'.wake
            && s'.wake[s.current] == Deadline(s.ticks, n)
  {
  }

  /** Asleep since event i, at state j: on the list, with the deadline, so many ticks on. */
  ghost predicate Asleep(states: seq<Sys>, events: seq<Event>, i: nat, j: nat, n: u64)
    requires |states| == |events| + 1 && i < j <= |events|
  {
    var s, s', t := states[i].sched, states[j].sched, states[i].sched.current;
    t in s'.sleepers && t in s'.wake && s'.wake[t] == Deadline(s.ticks, n)
        && s'.ticks == Wrap32(s.ticks + Ticks(events, i + 1, j))
  }

  /** k ticks on, the counter is below the deadline. */
  predicate NotYet(ticks: u32, n: u64, k: nat) { Wrap32(ticks + k) < Deadline(ticks, n) }

  lemma WrapTwice(a: u32, k: nat)
    ensures Wrap32(Wrap32(a + k) + 1) == Wrap32(a + (k + 1)) && Wrap32(a + 0) == a
  {
  }

  /**
   A thread that went to sleep for n ticks at event i stays asleep as long as no tick in between reaches its
   deadline.
   */
  lemma {:induction false} StaysAsleep(states: seq<Sys>, events: seq<Event>, i: nat, j: nat, n: u64)
    requires Run(states, events) && i < j <= |events| && events[i] == SleepEvent(n)
    requires var s := states[i].sched; s.current != 0 && s.current != s.idle
    requires var s := states[i].sched;
             forall k: nat :: 0 < k <= Ticks(events, i + 1, j) ==> NotYet(s.ticks, n, k)
    ensures Asleep(states, events, i, j, n)
    decreases j
  {
    hide PInv, Step, Enabled, Wrap32;
    var s, t := states[i].sched, states[i].sched.current;
    RunInv(states, events, j - 1);
    if j == i + 1 {
      FallsAsleep(states[i], n);
      WrapTwice(s.ticks, 0);
    } else {
      StaysAsleep(states, events, i, j - 1, n);
      WrapTwice(s.ticks, Ticks(events, i + 1, j - 1));
      if events[j - 1].TickEvent? {
        assert NotYet(s.ticks, n, Ticks(events, i + 1, j));
        SleeperTicks(states[j - 1], t);
      } else {
        SleeperStays(states[j - 1], events[j - 1], t);
      }
    }
  }

  function AtLeastOne(n: nat): nat { if n == 0 then 1 else n }

  lemma Plain(ticks: u32, n: u64, k: nat)
    requires ticks + AtLeastOne(n) < U32 && 0 < k <= AtLeastOne(n)
    ensures k < AtLeastOne(n) ==> NotYet(ticks, n, k)
    ensures Deadline(ticks, n) == ticks + AtLeastOne(n) && Wrap32(ticks + k) == ticks + k
  {
  }

  /**
   A sleep of n ticks that ends before the counter wraps: the thread is on the sleep list while fewer than max(n, 1)
   ticks have passed, and exactly that tick puts it into the run queue.
   */
  lemma SleepExact(states: seq<Sys>, events: seq<Event>, i: nat, j: nat, n: u64)
    requires Run(states, events) && i < j <= |events| && events[i] == SleepEvent(n)
    requires var s := states[i].sched; s.current != 0 && s.current != s.idle && s.ticks + AtLeastOne(n) < U32
    ensures Ticks(events, i + 1, j) < AtLeastOne(n) ==> states[i].sched.current in states[j].sched.sleepers
    ensures j < |events| && events[j].TickEvent? && Ticks(events, i + 1, j) == AtLeastOne(n) - 1 ==>
              var t, s' := states[i].sched.current, states[j + 1].sched; t in s'.queue && t !in s'.sleepers
  {
    hide PInv, Step, Enabled, Wrap32, Deadline;
    var s, t := states[i].sched, states[i].sched.current;
    if Ticks(events, i + 1, j) < AtLeastOne(n) {
      forall k: nat | 0 < k <= Ticks(events, i + 1, j) ensures NotYet(s.ticks, n, k) {
        Plain(s.ticks, n, k);
      }
      StaysAsleep(states, events, i, j, n);
      if j < |events| && events[j].TickEvent? && Ticks(events, i + 1, j) == AtLeastOne(n) - 1 {
        RunInv(states, events, j);
        SleeperTicks(states[j], t);
        Plain(s.ticks, n, AtLeastOne(n));
        WrapTwice(s.ticks, Ticks(events, i + 1, j));
      }
    }
  }

  /** A sleep whose end lies beyond the 32-bit counter never ends: the counter wraps before it gets there. */
  lemma SleepsForever(states: seq<Sys>, events: seq<Event>, i: nat, j: nat, n: u64)
    requires Run(states, events) && i < j <= |events| && events[i] == SleepEvent(n)
    requires var s := states[i].sched; s.current != 0 && s.current != s.idle && U32 <= s.ticks + AtLeastOne(n) < U64
    ensures states[i].sched.current in states[j].sched.sleepers
  {
    hide PInv, Step, Enabled;
    StaysAsleep(states, events, i, j, n);
  }

  /** A dead process keeps its record until it is reaped. */
  lemma RecordStays(y: Sys, e: Event, i: nat)
    requires PInv(y) && Enabled(y, e) && i < MAX_PROCS && y.used[i] && !y.procs[i].alive && e != ReapEvent(i + 1)
    ensures var y' := Step(y, e); |y'.used| == |y'.procs| == MAX_PROCS && y'.used[i] && y'.procs[i] == y.procs[i]
  {
    hide Inv, Enqueue, Yield, Sleep, Tick, Exit, Create, Free;
    assert SlotOk(y, i);
    SchedOk(y);
    if e.ExitEvent? && y.sched.current != 0 { CurrentRuns(y); }
  }

  lemma CurrentRuns(y: Sys)
    requires PInv(y) && y.sched.current != y.sched.idle && y.sched.current != 0
    ensures y.sched.current in y.sched.state && y.sched.state[y.sched.current] == Running
  {
  }

  /** The code a process exits with is the one its record holds for waitpid, until the process is reaped. */
  lemma {:induction false} ExitCodeKept(states: seq<Sys>, events: seq<Event>, i: nat, j: nat, code: int)
    requires Run(states, events) && i < j <= |events| && events[i] == ExitEvent(code)
    requires states[i].sched.current in states[i].procOf
    requires var slot := states[i].procOf[states[i].sched.current];
             forall k :: i < k < j ==> events[k] != ReapEvent(slot + 1)
    ensures var slot, y := states[i].procOf[states[i].sched.current], states[j];
            && slot < |y.procs| == |y.used| && y.used[slot]
            && y.procs[slot].pid == slot + 1 && y.procs[slot].code == code && !y.procs[slot].alive
            && |y.used| == MAX_PROCS && ReapResult(y, slot + 1) == Success
    decreases j
  {
    hide PInv, Step, Enabled;
    var slot := states[i].procOf[states[i].sched.current];
    if j == i + 1 {
      RunInv(states, events, i);
      ExitRecorded(states[i], code);
    } else {
      ExitCodeKept(states, events, i, j - 1, code);
      RunInv(states, events, j - 1);
      SchedOk(states[j - 1]);
      RecordStays(states[j - 1], events[j - 1], slot);
    }
  }

  lemma ExitRecorded(y: Sys, code: int)
    requires PInv(y) && Enabled(y, ExitEvent(code)) && y.sched.current in y.procOf
    ensures var slot, y' := y.procOf[y.sched.current], Step(y, ExitEvent(code));
            && slot < |y'.procs| == |y'.used| && y'.used[slot]
            && y'.procs[slot] == y.procs[slot].(alive := false, code := code) && y'.procs[slot].pid == slot + 1
            && |y'.used| == MAX_PROCS
  {
    hide Inv, Exit;
    assert SlotOk(y, y.procOf[y.sched.current]);
  }

  /** Parent and pid of a process stay as they are until it is reaped, whoever runs, exits or is reaped meanwhile. */
  lemma ParentStays(y: Sys, e: Event, i: nat)
    requires PInv(y) && Enabled(y, e) && i < MAX_PROCS && y.used[i] && e != ReapEvent(i + 1)
    ensures var y' := Step(y, e);
            && |y'.used| == |y'.procs| == MAX_PROCS && y'.used[i]
            && y'.procs[i].pid == y.procs[i].pid && y'.procs[i].ppid == y.procs[i].ppid
  {
    hide Inv, Enqueue, Yield, Sleep, Tick, Exit, Create, Free;
    assert SlotOk(y, i);
    SchedOk(y);
  }

  /** A process made while pid q runs is a child of q, and waitpid finds it as one, until it is reaped. */
  lemma {:induction false} ParentKept(states: seq<Sys>, events: seq<Event>, i: nat, j: nat)
    requires Run(states, events) && i < j <= |events| && events[i].NewProc?
    requires var slot := FreeSlot(states[i].used, 0);
             slot < |states[i].used| && forall k :: i < k < j ==> events[k] != ReapEvent(slot + 1)
    ensures var slot, y := FreeSlot(states[i].used, 0), states[j];
            && slot < |y.procs| == |y.used| && y.used[slot]
            && y.procs[slot].pid == slot + 1 && y.procs[slot].ppid == CurrentPid(states[i])
    decreases j
  {
    hide PInv, Step, Enabled, CurrentPid;
    var slot := FreeSlot(states[i].used, 0);
    if j == i + 1 {
      RunInv(states, events, i);
      Born(states[i]);
    } else {
      ParentKept(states, events, i, j - 1);
      RunInv(states, events, j - 1);
      SchedOk(states[j - 1]);
      ParentStays(states[j - 1], events[j - 1], slot);
    }
  }

  lemma Born(y: Sys)
    requires PInv(y) && Enabled(y, NewProc) && FreeSlot(y.used, 0) < |y.used|
    ensures var slot, y' := FreeSlot(y.used, 0), Step(y, NewProc);
            && slot < |y'.procs| == |y'.used| && y'.used[slot]
            && y'.procs[slot].pid == slot + 1 && y'.procs[slot].ppid == CurrentPid(y)
  {
    hide Inv, CurrentPid;
  }
}
