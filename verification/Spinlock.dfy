/** The spinlock under any interleaving of any number of CPUs, one access to the lock word at a time. */
module Spinlock {
  import opened Machine

  const UNLOCKED: u32 := 0
  const LOCKED: u32 := 1
  const DESTROYED: u32 := 0xFFFF_FFFF

  /** Why a CPU is about to compare and swap. */
  datatype Goal = ForLock | ForTry | ForDestroy

  /** Where a CPU is: outside, before a compare-and-swap, before the load of the inner loop, before unlock's store. */
  datatype At = Outside | Swapping(goal: Goal) | Spinning | Storing

  /** A CPU holds the lock from its successful swap to its unlock's store; won is what its last call returned. */
  datatype Cpu = Cpu(at: At, holds: bool, won: bool)

  datatype State = State(word: u32, cpus: seq<Cpu>)

  /** What a CPU outside the lock code does next. */
  datatype Choice = Lock | TryLock | Unlock | Destroy

  /** atomic_cmpxchg on the word: the new word, and whether it was unlocked. */
  function Swapped(word: u32, desired: u32): (u32, bool) { if word == UNLOCKED then (desired, true) else (word, false) }

  function Call(c: Choice): At {
    match c
    case Lock => Swapping(ForLock)
    case TryLock => Swapping(ForTry)
    case Destroy => Swapping(ForDestroy)
    case Unlock => Storing
  }

  /** One step of one CPU: the next access to the word and what follows from it. */
  function Step(s: State, i: nat, c: Choice): State
    requires i < |s.cpus|
  {
    var p := s.cpus[i];
    match p.at
    case Outside => s.(cpus := s.cpus[i := p.(at := Call(c))])
    case Storing => State(UNLOCKED, s.cpus[i := Cpu(Outside, false, p.won)])
    case Spinning => s.(cpus := s.cpus[i := p.(at := if s.word == LOCKED then Spinning else Swapping(ForLock))])
    case Swapping(g) =>
      var (word, won) := Swapped(s.word, if g.ForDestroy? then DESTROYED else LOCKED);
      if won then State(word, s.cpus[i := Cpu(Outside, p.holds || !g.ForDestroy?, true)])
      else s.(cpus := s.cpus[i := Cpu(if g.ForLock? then Spinning else Outside, p.holds, false)])
  }

  /** Only the holder unlocks; everything else is always allowed. */
  predicate Allowed(s: State, i: nat, c: Choice) {
    i < |s.cpus| && (c == Unlock && s.cpus[i].at == Outside ==> s.cpus[i].holds)
  }

  ghost function Holders(s: State): set<nat> { set i: nat | i < |s.cpus| && s.cpus[i].holds }

  ghost predicate Inv(s: State) {
    && s.word in {UNLOCKED, LOCKED, DESTROYED}
    && (forall i: nat, j: nat :: i < |s.cpus| && j < |s.cpus| && s.cpus[i].holds && s.cpus[j].holds ==> i == j)
    && (s.word == LOCKED <==> exists i: nat :: i < |s.cpus| && s.cpus[i].holds)
    && (forall i: nat :: i < |s.cpus| && s.cpus[i].at == Storing ==> s.cpus[i].holds)
  }

  lemma StepInv(s: State, i: nat, c: Choice)
    requires Inv(s) && Allowed(s, i, c)
    ensures Inv(Step(s, i, c))
  {
    var s' := Step(s, i, c);
    if s.cpus[i].holds { assert s'.cpus[i].at != Storing ==> s.cpus[i].at == Storing || s'.cpus[i].holds; }
    if s'.word == LOCKED && s.word == LOCKED {
      var k: nat :| k < |s.cpus| && s.cpus[k].holds;
      assert s'.cpus[k].holds;
    }
    if s'.word == LOCKED && s.word != LOCKED { assert s'.cpus[i].holds; }
  }

  /** Each step is a step of a plain mutex: nothing, an acquire of a free lock, a release by its owner, or a destroy of
      a free lock. */
  ghost predicate MutexStep(a: set<nat>, dead: bool, a': set<nat>, dead': bool, i: nat) {
    || (a' == a && dead' == dead)
    || (a == {} && !dead && a' == {i} && !dead')
    || (a == {i} && !dead && a' == {} && !dead')
    || (a == {} && !dead && a' == {} && dead')
  }

  lemma StepRefines(s: State, i: nat, c: Choice)
    requires Inv(s) && Allowed(s, i, c)
    ensures MutexStep(Holders(s), s.word == DESTROYED, Holders(Step(s, i, c)), Step(s, i, c).word == DESTROYED, i)
  {
    var s' := Step(s, i, c);
    if s'.cpus[i].holds == s.cpus[i].holds {
      assert Holders(s') == Holders(s);
      if s'.word == DESTROYED && s.word != DESTROYED { assert Holders(s) == {}; }
    } else if s'.cpus[i].holds {
      assert Holders(s) == {} && Holders(s') == {i};
    } else {
      assert Holders(s) == {i} && Holders(s') == {};
    }
  }

  /** A schedule: which CPU moves, and what it calls when it is outside. */
  type Schedule = seq<(nat, Choice)>

  /** Every unlock in the schedule is by the holder of that moment. */
  predicate Fair(s: State, run: Schedule)
    decreases |run|
  {
    run == [] || (Allowed(s, run[0].0, run[0].1) && Fair(Step(s, run[0].0, run[0].1), run[1..]))
  }

  function Run(s: State, run: Schedule): State
    requires Fair(s, run)
    decreases |run|
  {
    if run == [] then s else Run(Step(s, run[0].0, run[0].1), run[1..])
  }

  function Fresh(n: nat): State { State(UNLOCKED, seq(n, _ => Cpu(Outside, false, false))) }

  lemma {:induction false} RunInv(s: State, run: Schedule)
    requires Inv(s) && Fair(s, run)
    ensures Inv(Run(s, run))
    decreases |run|
  {
    hide Inv, Step;
    if run != [] {
      StepInv(s, run[0].0, run[0].1);
      RunInv(Step(s, run[0].0, run[0].1), run[1..]);
    }
  }

  /** Whatever the interleaving: at most one holder, and the word is LOCKED exactly when there is one. */
  lemma MutualExclusion(n: nat, run: Schedule)
    requires Fair(Fresh(n), run)
    ensures var s := Run(Fresh(n), run);
            && |Holders(s)| == (if s.word == LOCKED then 1 else 0)
            && (s.word == DESTROYED ==> Holders(s) == {})
  {
    hide Run, Fair;
    var s := Run(Fresh(n), run);
    RunInv(Fresh(n), run);
    if s.word == LOCKED {
      var i: nat :| i < |s.cpus| && s.cpus[i].holds;
      assert Holders(s) == {i};
    } else {
      assert Holders(s) == {};
    }
  }

  /** A destroyed lock stays destroyed; nobody holds it, and a CPU inside spinlock_lock never gets out. */
  lemma {:induction false} DestroyedForGood(s: State, run: Schedule)
    requires Inv(s) && Fair(s, run) && s.word == DESTROYED
    ensures Run(s, run).word == DESTROYED && Holders(Run(s, run)) == {} && |Run(s, run).cpus| == |s.cpus|
    ensures forall i: nat ::
          i < |s.cpus| && s.cpus[i].at in {Swapping(ForLock), Spinning} ==>
            Run(s, run).cpus[i].at in {Swapping(ForLock), Spinning}
    decreases |run|
  {
    if run != [] {
      var t := Step(s, run[0].0, run[0].1);
      StepInv(s, run[0].0, run[0].1);
      DestroyedForGood(t, run[1..]);
    }
  }

  /** A lock or trylock that comes back with success holds the lock; a failed one changed nothing. */
  lemma SwapIs(s: State, i: nat, c: Choice)
    requires Inv(s) && Allowed(s, i, c) && s.cpus[i].at.Swapping?
    ensures var s', g := Step(s, i, c), s.cpus[i].at.goal;
            && (s'.cpus[i].won <==> s.word == UNLOCKED)
            && (!s'.cpus[i].won ==> s'.word == s.word && Holders(s') == Holders(s))
            && (s'.cpus[i].won && !g.ForDestroy? ==> Holders(s') == {i})
            && (g.ForLock? ==> (s'.cpus[i].at == Outside <==> s'.cpus[i].won))
  {
    var s' := Step(s, i, c);
    if s'.cpus[i].won {
      assert Holders(s) == {};
    } else {
      assert Holders(s') == Holders(s);
    }
  }

  /** The holder's rule is needed: an unlock by somebody else lets two CPUs in. */
  lemma StrangerUnlocks()
    ensures var s := State(LOCKED, [Cpu(Outside, true, true), Cpu(Outside, false, false)]);
            && Inv(s) && !Allowed(s, 1, Unlock)
            && var t := Step(Step(Step(Step(s, 1, Unlock), 1, Unlock), 1, Lock), 1, Lock);
                  t.cpus[0].holds && t.cpus[1].holds
  {
    var s := State(LOCKED, [Cpu(Outside, true, true), Cpu(Outside, false, false)]);
    assert s.cpus[0].holds;
  }
}
