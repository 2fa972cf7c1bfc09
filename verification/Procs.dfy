/** The process table beside the scheduler: slots, exit and reap, and the invariant each step of either keeps. */
module Procs {
  import opened Machine
  import opened SchedSpec

  const MAX_PROCS: nat := 63

  datatype Process = Process(pid: int, ppid: int, alive: bool, code: int, thread: nat)

  const NO_PROCESS := Process(0, 0, false, 0, 0)

  /** The scheduler, the table's used flags and records, and every thread's process, by slot. */
  datatype Sys = Sys(sched: Sched, used: seq<bool>, procs: seq<Process>, procOf: map<nat, nat>)

  /** A used slot: its pid is its number, and its thread is dead exactly when the process is. */
  ghost predicate SlotOk(y: Sys, i: nat)
    requires i < |y.procs|
  {
    var p := y.procs[i];
    && p.pid == i + 1
    && (p.thread == 0 ==> p.alive)
    && (p.thread != 0 ==>
          && p.thread in y.sched.state && p.thread != y.sched.idle && p.thread in y.procOf && y.procOf[p.thread] == i
          && (p.alive <==> y.sched.state[p.thread] != Zombie))
  }

  ghost predicate PInv(y: Sys) {
    && Inv(y.sched) && |y.used| == |y.procs| == MAX_PROCS
    && (forall i: nat | i < MAX_PROCS && y.used[i] :: SlotOk(y, i))
    && (forall t ::
          t in y.procOf ==>
            0 != t && y.procOf[t] < MAX_PROCS && y.used[y.procOf[t]] && y.procs[y.procOf[t]].thread == t)
  }

  /** The pid proc_current reports: that of the current thread's process, or the boot process's 0. */
  function CurrentPid(y: Sys): int {
    if y.sched.current in y.procOf && y.procOf[y.sched.current] < |y.procs| then y.procs[y.procOf[y.sched.current]].pid
        else 0
  }

  /** The first unused slot at or after i. */
  function FreeSlot(used: seq<bool>, i: nat): (r: nat)
    requires i <= |used|
    ensures i <= r <= |used| && (r < |used| ==> !used[r]) && forall k :: i <= k < r ==> used[k]
    decreases |used| - i
  {
    if i == |used| || !used[i] then i else FreeSlot(used, i + 1)
  }

  /** proc_create. */
  function CreateProc(y: Sys): Sys {
    var i := FreeSlot(y.used, 0);
    if i < |y.used| && i < |y.procs| then y.(used := y.used[i := true],
        procs := y.procs[i := Process(i + 1, CurrentPid(y), true, 0, 0)]) else y
  }

  /** proc_attach_thread. */
  function Attach(y: Sys, i: nat, t: nat): Sys
    requires i < |y.procs|
  {
    y.(procs := y.procs[i := y.procs[i].(thread := t)], procOf := y.procOf[t := i])
  }

  /** proc_mark_exit on the current thread's process. */
  function MarkExit(y: Sys, code: int): seq<Process> {
    if y.sched.current in y.procOf && y.procOf[y.sched.current] < |y.procs| then
      y.procs[y.procOf[y.sched.current] := y.procs[y.procOf[y.sched.current]].(alive := false, code := code)]
    else y.procs
  }

  /** Exit: the process is dead, its thread a zombie, and another thread runs. */
  function ExitProc(y: Sys, code: int): Sys {
    y.(procs := MarkExit(y, code), sched := Exit(y.sched))
  }

  /** The answer of proc_reap. */
  function ReapResult(y: Sys, pid: int): Errno
    requires |y.used| == |y.procs| == MAX_PROCS
  {
    if pid <= 0 || pid > MAX_PROCS then ProcessNotFound
    else if !y.used[pid - 1] || y.procs[pid - 1].pid != pid then ProcessNotFound
    else if y.procs[pid - 1].alive then Busy
    else Success
  }

  /** proc_reap: the slot is free again, and so is the thread. */
  function Reap(y: Sys, pid: int): Sys
    requires |y.used| == |y.procs| == MAX_PROCS
  {
    if ReapResult(y, pid) != Success then y
    else
      var t := y.procs[pid - 1].thread;
      Sys(if t == 0 then y.sched else
            Free(y.sched, t), y.used[pid - 1 := false], y.procs[pid - 1 := NO_PROCESS], y.procOf - {t})
  }

  lemma CreateProcInv(y: Sys)
    requires PInv(y)
    ensures PInv(CreateProc(y))
  {
    var y' := CreateProc(y);
    forall i: nat | i < MAX_PROCS && y'.used[i]
        ensures SlotOk(y', i) { if i < |y.used| && y.used[i] { assert SlotOk(y, i); } }
  }

  lemma AttachInv(y: Sys, i: nat, t: nat)
    requires PInv(y) && i < MAX_PROCS && y.used[i] && y.procs[i].thread == 0 && t in y.sched.newborn && t !in y.procOf
    ensures PInv(Attach(y, i, t))
  {
    assert Placed(y.sched, t);
    var y' := Attach(y, i, t);
    forall k: nat | k < MAX_PROCS && y'.used[k] ensures SlotOk(y', k) { assert SlotOk(y, k); }
  }

  /** Steps that keep every thread's deadness keep the table right. */
  lemma SchedStepInv(y: Sys, s': Sched)
    requires PInv(y) && Inv(s') && s'.idle == y.sched.idle
    requires forall t ::
          t in y.procOf ==>
            t in s'.state && t in y.sched.state && (s'.state[t] == Zombie <==> y.sched.state[t] == Zombie)
    ensures PInv(y.(sched := s'))
  {
    var y' := y.(sched := s');
    forall i: nat | i < MAX_PROCS && y.used[i] ensures SlotOk(y', i) { assert SlotOk(y, i); }
  }

  /** No thread but idle came to life, died or vanished. */
  ghost predicate LivesKept(s: Sched, s': Sched) {
    && s'.idle == s.idle
    && forall t :: t in s.state && t != s.idle ==> t in s'.state && (s'.state[t] == Zombie <==> s.state[t] == Zombie)
  }

  lemma EnqueueLives(s: Sched, t: nat)
    requires t in s.state && t != s.idle ==> s.state[t] != Zombie
    ensures LivesKept(s, Enqueue(s, t))
  {
  }

  lemma YieldLives(s: Sched)
    requires Inv(s)
    ensures LivesKept(s, Yield(s))
  {
    forall t | t in s.state && t != s.idle ensures Placed(s, t) {}
    assert Next(Requeued(s)) == s.idle || Next(Requeued(s)) in Requeued(s).queue;
  }

  lemma SleepLives(s: Sched, n: u64)
    requires Inv(s)
    ensures LivesKept(s, Sleep(s, n))
  {
    if s.current != 0 && s.current != s.idle {
      var put := PutToSleep(s, n);
      PutDetached(s, n);
      assert Next(put) == s.idle || Next(put) in put.queue;
      forall t | t in s.state && t != s.idle ensures Placed(s, t) {}
    }
  }

  lemma {:induction false} EnqueueAllLives(s: Sched, due: seq<nat>)
    requires Waking(s, due)
    ensures LivesKept(s, EnqueueAll(s, due))
    decreases |due|
  {
    if due != [] {
      WakeOne(s, due);
      EnqueueAllLives(Enqueue(s, due[0]), due[1..]);
    }
  }

  lemma TickLives(s: Sched)
    requires Inv(s)
    ensures LivesKept(s, Tick(s))
  {
    hide Inv, Waking, Due, NotDue, EnqueueAll;
    var s0 := Clock(s);
    var due, s1 := Due(s0, s.sleepers), s0.(sleepers := NotDue(s0, s.sleepers));
    WakingStart(s, s0, s1, due);
    EnqueueAllLives(s1, due);
  }

  lemma LivesInv(y: Sys, s': Sched)
    requires PInv(y) && Inv(s') && LivesKept(y.sched, s')
    ensures PInv(y.(sched := s'))
  {
    hide Inv;
    forall t | t in y.procOf ensures t in y.sched.state && t != y.sched.idle { assert SlotOk(y, y.procOf[t]); }
    SchedStepInv(y, s');
  }

  /** Only the thread that exits dies. */
  lemma ExitLives(s: Sched)
    requires Inv(s) && s.current != s.idle
    ensures Exit(s).idle == s.idle
    ensures forall t :: t in s.state && t != s.idle ==>
      t in Exit(s).state && (Exit(s).state[t] == Zombie <==> s.state[t] == Zombie || t == s.current)
  {
    var put := if s.current != 0 then s.(state := s.state[s.current := Zombie]) else s;
    forall t | t in s.state && t != s.idle ensures Placed(s, t) {}
    assert Requeued(put) == put;
    assert Next(put) == s.idle || Next(put) in put.queue;
  }

  lemma ExitProcInv(y: Sys, code: int)
    requires PInv(y) && y.sched.current != y.sched.idle
    ensures PInv(ExitProc(y, code))
  {
    hide Inv, Exit;
    ExitInv(y.sched);
    ExitLives(y.sched);
    var y' := ExitProc(y, code);
    forall i: nat | i < MAX_PROCS && y'.used[i] ensures SlotOk(y', i) { assert SlotOk(y, i); }
  }

  /** Reaping frees a zombie: not the current thread, not a queued one, not a sleeping one. */
  lemma ReapSafe(y: Sys, pid: int)
    requires PInv(y) && ReapResult(y, pid) == Success
    ensures var t := y.procs[pid - 1].thread;
            && t != 0 && t in y.sched.state && y.sched.state[t] == Zombie && t != y.sched.idle
            && t != y.sched.current && t !in y.sched.queue && t !in y.sched.sleepers && t !in y.sched.newborn
  {
    hide Inv;
    assert SlotOk(y, pid - 1);
    FreeInv(y.sched, y.procs[pid - 1].thread);
  }

  /** A reap frees exactly one slot and one thread, of a dead process, and every dead process can be reaped; the pid is
      then unknown. */
  lemma ReapIs(y: Sys, pid: int)
    requires PInv(y)
    ensures ReapResult(y, pid) == Success <==> 0 < pid <= MAX_PROCS && y.used[pid - 1] && !y.procs[pid - 1].alive
    ensures ReapResult(y, pid) == Busy <==> 0 < pid <= MAX_PROCS && y.used[pid - 1] && y.procs[pid - 1].alive
    ensures ReapResult(y, pid) != Success ==> Reap(y, pid) == y
    ensures ReapResult(y, pid) == Success ==>
              var t, y' := y.procs[pid - 1].thread, Reap(y, pid);
              && |y'.used| == |y'.procs| == MAX_PROCS && ReapResult(y', pid) == ProcessNotFound
              && (forall i: nat | i < MAX_PROCS && i != pid - 1 :: y'.used[i] == y.used[i] && y'.procs[i] == y.procs[i])
              && t in y.sched.state && y'.sched == y.sched.(state := y.sched.state - {t})
              && t !in y'.sched.state && t !in y'.procOf && (forall u :: u in y.procOf && u != t ==> u in y'.procOf)
  {
    hide Inv;
    if 0 < pid <= MAX_PROCS && y.used[pid - 1] { assert SlotOk(y, pid - 1); }
    if ReapResult(y, pid) == Success { ReapSafe(y, pid); }
  }

  lemma ReapInv(y: Sys, pid: int)
    requires PInv(y)
    ensures PInv(Reap(y, pid))
  {
    hide Inv;
    if ReapResult(y, pid) == Success {
      ReapSafe(y, pid);
      var t, y' := y.procs[pid - 1].thread, Reap(y, pid);
      FreeInv(y.sched, t);
      assert SlotOk(y, pid - 1);
      forall i: nat | i < MAX_PROCS && y'.used[i] ensures SlotOk(y', i) { assert SlotOk(y, i); }
      forall u | u in y'.procOf ensures y'.used[y'.procOf[u]] && y'.procs[y'.procOf[u]].thread == u {}
    }
  }

  lemma NewThreadInv(y: Sys, t: nat)
    requires PInv(y) && t != 0 && t !in y.sched.state && t !in y.sched.queue && t !in y.sched.sleepers
    ensures PInv(y.(sched := Create(y.sched, t)))
  {
    hide Inv;
    CreateInv(y.sched, t);
    IdleAlive(y.sched);
    LivesInv(y, Create(y.sched, t));
  }

  lemma IdleAlive(s: Sched)
    requires Inv(s)
    ensures s.idle in s.state
  {
  }
}
