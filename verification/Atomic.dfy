/** Compare-and-swap retry loops on one word under any interleaving: every addition takes effect once. */
module Atomic {
  import opened Machine

  /** atomic_fetch_add or atomic_fetch_sub. */
  datatype Call = FetchAdd(inc: u32) | FetchSub(dec: u32)

  function Amount(c: Call): int {
    match c
    case FetchAdd(inc) => inc
    case FetchSub(dec) => 0 - dec
  }

  /** A CPU is between calls, before its load, or between the load and the compare-and-swap. */
  datatype Cpu = Idle | Entered(call: Call) | Loaded(call: Call, was: u32, seen: nat)

  /** A finished call and what it returned. */
  datatype Done = Done(cpu: nat, call: Call, returned: u32)

  /** The word, the CPUs, and the calls in the order their swaps succeeded. */
  datatype State = State(word: u32, cpus: seq<Cpu>, log: seq<Done>)

  /** One step of one CPU; a failed swap goes back to the load. */
  function Step(s: State, i: nat, c: Call): State
    requires i < |s.cpus|
  {
    match s.cpus[i]
    case Idle => s.(cpus := s.cpus[i := Entered(c)])
    case Entered(d) => s.(cpus := s.cpus[i := Loaded(d, s.word, |s.log|)])
    case Loaded(d, was, seen) =>
      if s.word == was then State(Wrap32(was + Amount(d)), s.cpus[i := Idle], s.log + [Done(i, d, was)])
      else s.(cpus := s.cpus[i := Entered(d)])
  }

  /** The net change of the finished calls: additions less subtractions. */
  ghost function Net(log: seq<Done>): int { if log == [] then 0
      else Net(log[..|log| - 1]) + Amount(log[|log| - 1].call) }

  lemma NetStep(log: seq<Done>, e: Done)
    ensures Net(log + [e]) == Net(log) + Amount(e.call)
  {
    assert (log + [e])[..|log|] == log;
  }

  /** A call returned the value that the calls before it had made. */
  ghost predicate InLine(init: u32, log: seq<Done>, k: nat)
    requires k < |log|
  {
    log[k].returned == Wrap32(init + Net(log[..k]))
  }

  /** A CPU's loaded value is current unless some call finished since. */
  ghost predicate Current(s: State, c: Cpu) { c.Loaded? ==>
        c.seen <= |s.log| && (c.seen == |s.log| ==> s.word == c.was) }

  ghost predicate Inv(s: State, init: u32) {
    && s.word == Wrap32(init + Net(s.log))
    && (forall k: nat :: k < |s.log| ==> InLine(init, s.log, k))
    && (forall i: nat :: i < |s.cpus| ==> Current(s, s.cpus[i]))
  }

  lemma WrapAdd(a: int, d: int)
    ensures Wrap32(Wrap32(a) + d) == Wrap32(a + d)
  {
  }

  lemma LogStep(init: u32, log: seq<Done>, e: Done)
    requires (forall k: nat :: k < |log| ==> InLine(init, log, k)) && e.returned == Wrap32(init + Net(log))
    ensures forall k: nat :: k < |log + [e]| ==> InLine(init, log + [e], k)
  {
    var all := log + [e];
    forall k: nat | k < |all| ensures InLine(init, all, k) {
      if k < |log| { assert InLine(init, log, k) && all[..k] == log[..k]; } else { assert all[..k] == log; }
    }
  }

  lemma StepInv(s: State, i: nat, c: Call, init: u32)
    requires Inv(s, init) && i < |s.cpus|
    ensures Inv(Step(s, i, c), init)
  {
    hide Net, InLine, Wrap32, Amount;
    var s' := Step(s, i, c);
    assert Current(s, s.cpus[i]);
    if s.cpus[i].Loaded? && s.word == s.cpus[i].was {
      var e := Done(i, s.cpus[i].call, s.word);
      NetStep(s.log, e);
      WrapAdd(init + Net(s.log), Amount(e.call));
      LogStep(init, s.log, e);
    }
    forall j: nat | j < |s'.cpus| ensures Current(s', s'.cpus[j]) { if j != i { assert Current(s, s.cpus[j]); } }
  }

  /** A swap fails only when another call has finished since this CPU's load: some call always gets through. */
  lemma FailureMeansProgress(s: State, i: nat, c: Call, init: u32)
    requires Inv(s, init) && i < |s.cpus| && s.cpus[i].Loaded? && |Step(s, i, c).log| == |s.log|
    ensures s.cpus[i].seen < |s.log| && s.word != s.cpus[i].was
  {
    assert Current(s, s.cpus[i]);
  }

  type Schedule = seq<(nat, Call)>

  predicate Within(run: Schedule, n: nat) { forall k :: 0 <= k < |run| ==> run[k].0 < n }

  function Run(s: State, run: Schedule): State
    requires Within(run, |s.cpus|)
    decreases |run|
  {
    if run == [] then s else Run(Step(s, run[0].0, run[0].1), run[1..])
  }

  lemma {:induction false} RunInv(s: State, run: Schedule, init: u32)
    requires Inv(s, init) && Within(run, |s.cpus|)
    ensures Inv(Run(s, run), init)
    decreases |run|
  {
    hide Inv;
    if run != [] {
      StepInv(s, run[0].0, run[0].1, init);
      RunInv(Step(s, run[0].0, run[0].1), run[1..], init);
    }
  }

  /** What a CPU still has to add. */
  ghost function Due(c: Cpu): int { if c.Idle? then 0 else Amount(c.call) }

  ghost function Pending(cpus: seq<Cpu>): int { if cpus == [] then 0
      else Pending(cpus[..|cpus| - 1]) + Due(cpus[|cpus| - 1]) }

  lemma {:induction false} PendingPut(cpus: seq<Cpu>, i: nat, c: Cpu)
    requires i < |cpus|
    ensures Pending(cpus[i := c]) == Pending(cpus) - Due(cpus[i]) + Due(c)
    decreases |cpus|
  {
    hide Due;
    var front := cpus[..|cpus| - 1];
    if i < |cpus| - 1 {
      PendingPut(front, i, c);
      assert cpus[i := c][..|cpus| - 1] == front[i := c];
    } else {
      assert cpus[i := c][..|cpus| - 1] == front;
    }
  }

  /** The net change of the calls that a run starts. */
  ghost function Started(s: State, run: Schedule): int
    requires Within(run, |s.cpus|)
    decreases |run|
  {
    if run == [] then 0
    else (if s.cpus[run[0].0].Idle? then Amount(run[0].1) else 0) + Started(Step(s, run[0].0, run[0].1), run[1..])
  }

  /** A step moves a call from started to pending, keeps it there, or moves it to finished. */
  lemma StepTotal(s: State, i: nat, c: Call)
    requires i < |s.cpus|
    ensures var s' := Step(s, i, c);
          Net(s'.log) + Pending(s'.cpus) == Net(s.log) + Pending(s.cpus) + if s.cpus[i].Idle? then Amount(c) else 0
  {
    hide Net, Pending, Amount;
    var s' := Step(s, i, c);
    PendingPut(s.cpus, i, s'.cpus[i]);
    assert s'.cpus == s.cpus[i := s'.cpus[i]];
    if |s'.log| > |s.log| { NetStep(s.log, s'.log[|s.log|]); }
  }

  lemma {:induction false} RunTotal(s: State, run: Schedule)
    requires Within(run, |s.cpus|)
    ensures var t := Run(s, run); Net(t.log) + Pending(t.cpus) == Net(s.log) + Pending(s.cpus) + Started(s, run)
    decreases |run|
  {
    hide Net, Pending, Amount, Step;
    if run != [] {
      StepTotal(s, run[0].0, run[0].1);
      StepSize(s, run[0].0, run[0].1);
      RunTotal(Step(s, run[0].0, run[0].1), run[1..]);
    }
  }

  lemma StepSize(s: State, i: nat, c: Call)
    requires i < |s.cpus|
    ensures |Step(s, i, c).cpus| == |s.cpus|
  {
  }

  lemma {:induction false} NonePending(cpus: seq<Cpu>)
    requires forall i: nat :: i < |cpus| ==> cpus[i] == Idle
    ensures Pending(cpus) == 0
    decreases |cpus|
  {
    if cpus != [] { NonePending(cpus[..|cpus| - 1]); }
  }

  function Initial(init: u32, n: nat): State { State(init, seq(n, _ => Idle), []) }

  /** In every interleaving each call returns a value in line with the calls that finished before it. */
  lemma Linearizes(init: u32, n: nat, run: Schedule)
    requires Within(run, n)
    ensures Inv(Run(Initial(init, n), run), init)
  {
    hide Run;
    assert Inv(Initial(init, n), init);
    RunInv(Initial(init, n), run, init);
  }

  /** Once every CPU is out of its call, the word is the initial value plus all that was asked for, modulo 2^32. */
  lemma EndsAtSum(init: u32, n: nat, run: Schedule)
    requires Within(run, n) && forall i: nat ::
          i < |Run(Initial(init, n), run).cpus| ==> Run(Initial(init, n), run).cpus[i] == Idle
    ensures Run(Initial(init, n), run).word == Wrap32(init + Started(Initial(init, n), run))
  {
    hide Run, Started, Wrap32;
    Linearizes(init, n, run);
    RunTotal(Initial(init, n), run);
    NonePending(Initial(init, n).cpus);
    NonePending(Run(Initial(init, n), run).cpus);
  }
}
