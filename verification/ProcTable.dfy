/** proc_create, proc_find_child, exit and proc_reap on the table of 63 slots, over the scheduler's own code. */
module ProcTable {
  import opened Machine
  import opened SchedSpec
  import opened Scheduler
  import opened Procs

  class Table {
    const kernel: Kernel
    var used: seq<bool>
    var procs: seq<Process>
    var procOf: map<nat, nat>

    /** proc_init. */
    constructor (kernel: Kernel)
      requires kernel.Valid()
      ensures Valid() && this.kernel == kernel && forall i :: 0 <= i < MAX_PROCS ==> !used[i]
    {
      this.kernel := kernel;
      used := seq(MAX_PROCS, _ => false);
      procs := seq(MAX_PROCS, _ => NO_PROCESS);
      procOf := map[];
    }

    ghost function System(): Sys
      reads this, kernel
    {
      Sys(kernel.s, used, procs, procOf)
    }

    ghost predicate Valid()
      reads this, kernel
    {
      kernel.Valid() && PInv(System())
    }

    /** proc_alloc_slot's search. */
    method FindSlot() returns (i: nat)
      requires |used| == MAX_PROCS
      ensures i == FreeSlot(used, 0)
    {
      i := 0;
      while i < MAX_PROCS && used[i]
        invariant 0 <= i <= MAX_PROCS && FreeSlot(used, i) == FreeSlot(used, 0)
        decreases MAX_PROCS - i
      {
        i := i + 1;
      }
    }

    /** proc_create: the lowest free slot, with the slot's number plus one as pid and the caller's pid as parent; 0
        when all are taken. */
    method CreateProcess() returns (pid: int)
      requires Valid()
      modifies this`used, this`procs
      ensures Valid() && System() == CreateProc(old(System()))
      ensures pid == 0 <==> forall i :: 0 <= i < MAX_PROCS ==> old(used)[i]
      ensures pid != 0 ==>
            1 <= pid <= MAX_PROCS && !old(used)[pid - 1] && used[pid - 1] && procs[pid - 1].alive
            && procs[pid - 1].ppid == CurrentPid(old(System()))
    {
      hide Inv, Represents;
      CreateProcInv(System());
      var i := FindSlot();
      if i == MAX_PROCS { return 0; }
      ProcBounds(System());
      var ppid := if kernel.current in procOf then procs[procOf[kernel.current]].pid else 0;
      used := used[i := true];
      procs := procs[i := Process(i + 1, ppid, true, 0, 0)];
      pid := i + 1;
    }

    /** proc_find_child: pids are unique, so there is at most one. */
    method FindChild(parent: int, child: int) returns (found: bool)
      requires Valid()
      ensures found <==> 1 <= child <= MAX_PROCS && used[child - 1] && procs[child - 1].ppid == parent
    {
      hide Inv, Represents;
      var i := 0;
      while i < MAX_PROCS
        invariant 0 <= i <= MAX_PROCS
        invariant forall k: nat | k < i :: !(used[k] && procs[k].pid == child && procs[k].ppid == parent)
      {
        assert used[i] ==> SlotOk(System(), i);
        if used[i] && procs[i].pid == child && procs[i].ppid == parent { return true; }
        i := i + 1;
      }
      assert 1 <= child <= MAX_PROCS && used[child - 1] ==> SlotOk(System(), child - 1);
      found := false;
    }

    /** The exit system call: proc_mark_exit, then ksched_yield. */
    method ExitCall(code: int)
      requires Valid() && kernel.current != kernel.idle
      modifies this`procs, kernel
      ensures Valid() && System() == ExitProc(old(System()), code)
    {
      hide Inv, Represents, Exit, PInv;
      ExitProcInv(System(), code);
      ProcBounds(System());
      var cur := kernel.current;
      if cur in procOf { procs := procs[procOf[cur] := procs[procOf[cur]].(alive := false, code := code)]; }
      kernel.ExitCurrent();
    }

    /** proc_reap. */
    method ReapProcess(pid: int) returns (r: Errno)
      requires Valid()
      modifies this, kernel
      ensures Valid() && |old(used)| == |old(procs)| == MAX_PROCS
      ensures r == ReapResult(old(System()), pid) && System() == Reap(old(System()), pid)
    {
      hide Inv, Represents, PInv;
      ReapInv(System(), pid);
      ProcBounds(System());
      if pid <= 0 || pid > MAX_PROCS { return ProcessNotFound; }
      if !used[pid - 1] || procs[pid - 1].pid != pid { return ProcessNotFound; }
      if procs[pid - 1].alive { return Busy; }
      ReapSafe(System(), pid);
      var t := procs[pid - 1].thread;
      kernel.FreeThread(t);
      procOf := procOf - {t};
      procs := procs[pid - 1 := NO_PROCESS];
      used := used[pid - 1 := false];
      r := Success;
    }
  }

  lemma ProcBounds(y: Sys)
    requires PInv(y)
    ensures |y.used| == |y.procs| == MAX_PROCS && forall t :: t in y.procOf ==> y.procOf[t] < MAX_PROCS
  {
  }
}
