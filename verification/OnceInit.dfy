/**
 `z_once` (zutil.h, the form with atomics): any number of threads, the initialization runs
 exactly once, and no thread returns before it is complete.
 */
module OnceInit {
  /** Where a thread is. */
  datatype Pc = Outside | Unready | Waiting | Initializing | Storing | Returned

  datatype System = System(begun: bool, done: bool, started: nat, completed: nat, pcs: seq<Pc>)

  /** Load `done`. */
  ghost predicate Look(s: System, s': System, t: nat) {
    t < |s.pcs| && s.pcs[t] == Outside && s' == s.(pcs := s.pcs[t := if s.done then Returned else Unready])
  }

  /** Test and set `begun`. */
  ghost predicate TestAndSet(s: System, s': System, t: nat) {
    && t < |s.pcs| && s.pcs[t] == Unready
    && s' == if s.begun then s.(pcs := s.pcs[t := Waiting])
             else s.(begun := true, started := s.started + 1, pcs := s.pcs[t := Initializing])
  }

  ghost predicate Complete(s: System, s': System, t: nat) {
    t < |s.pcs| && s.pcs[t] == Initializing && s' == s.(completed := s.completed + 1, pcs := s.pcs[t := Storing])
  }

  ghost predicate StoreDone(s: System, s': System, t: nat) {
    t < |s.pcs| && s.pcs[t] == Storing && s' == s.(done := true, pcs := s.pcs[t := Returned])
  }

  /** A turn of the waiting loop. */
  ghost predicate Wait(s: System, s': System, t: nat) {
    t < |s.pcs| && s.pcs[t] == Waiting && s' == if s.done then s.(pcs := s.pcs[t := Returned]) else s
  }

  ghost predicate StepOf(s: System, s': System, t: nat) {
    Look(s, s', t) || TestAndSet(s, s', t) || Complete(s, s', t) || StoreDone(s, s', t) || Wait(s, s', t)
  }

  ghost predicate Step(s: System, s': System) {
    exists t: nat :: StepOf(s, s', t)
  }

  ghost predicate Start(s: System) {
    !s.begun && !s.done && s.started == s.completed == 0 && forall t | 0 <= t < |s.pcs| :: s.pcs[t] == Outside
  }

  predicate AtWork(pc: Pc) {
    pc == Initializing || pc == Storing
  }

  ghost predicate Invariant(s: System) {
    && (forall t, u | 0 <= t < |s.pcs| && 0 <= u < |s.pcs| && AtWork(s.pcs[t]) && AtWork(s.pcs[u]) :: t == u)
    && s.started == (if s.begun then 1 else 0) && s.completed <= s.started
    && (forall t | 0 <= t < |s.pcs| && AtWork(s.pcs[t]) ::
          s.begun && !s.done && s.completed == if s.pcs[t] == Storing then 1 else 0)
    && (s.done ==> s.completed == 1)
    && (forall t | 0 <= t < |s.pcs| && s.pcs[t] == Returned :: s.done)
    && (forall t | 0 <= t < |s.pcs| && s.pcs[t] == Waiting :: s.begun)
    && (s.begun && !s.done ==> exists t :: 0 <= t < |s.pcs| && AtWork(s.pcs[t]))
  }

  lemma Starts(s: System)
    requires Start(s)
    ensures Invariant(s)
  {
  }

  lemma StepKeeps(s: System, s': System, t: nat)
    requires Invariant(s) && StepOf(s, s', t)
    ensures Invariant(s')
  {
    if s.begun && !s.done {
      var w :| 0 <= w < |s.pcs| && AtWork(s.pcs[w]);
      assert s'.done || AtWork(s'.pcs[w]);
    }
    if TestAndSet(s, s', t) && !s.begun { assert AtWork(s'.pcs[t]); }
  }

  ghost predicate IsRun(run: seq<System>) {
    run != [] && Start(run[0]) && forall i | 0 <= i < |run| - 1 :: Step(run[i], run[i + 1])
  }

  lemma {:induction false} RunKeeps(run: seq<System>, i: nat)
    requires IsRun(run) && i < |run|
    ensures Invariant(run[i])
  {
    hide Invariant, Start, StepOf;
    if i == 0 {
      Starts(run[0]);
    } else {
      RunKeeps(run, i - 1);
      assert Step(run[i - 1], run[i - 1 + 1]);
      var t: nat :| StepOf(run[i - 1], run[i], t);
      StepKeeps(run[i - 1], run[i], t);
    }
  }

  /** The initialization never starts twice, and a thread that has returned finds it complete. */
  lemma ExactlyOnce(run: seq<System>, i: nat, t: nat)
    requires IsRun(run) && i < |run| && t < |run[i].pcs|
    ensures run[i].started <= 1
    ensures run[i].pcs[t] == Returned ==> run[i].started == run[i].completed == 1
  {
    RunKeeps(run, i);
  }

  /** While a thread waits there is one at work, or the wait is over: nobody waits in vain. */
  lemma NotInVain(run: seq<System>, i: nat, t: nat)
    requires IsRun(run) && i < |run| && t < |run[i].pcs| && run[i].pcs[t] == Waiting
    ensures run[i].done || exists u :: 0 <= u < |run[i].pcs| && AtWork(run[i].pcs[u])
  {
    RunKeeps(run, i);
  }
}
