/**
 The emulated atomic operations of common-atomic.c: a spin lock around plain reads and writes,
 for any number of threads and any interleaving of their steps.
 */
module EmulatedAtomics {
  /** The operations on the cell. */
  datatype Op = FetchAdd(n: int) | Exchange(n: int) | CompareExchange(was: int, to: int)

  /** The cell after an operation; every operation returns the value before it. */
  function After(op: Op, v: int): int {
    match op
    case FetchAdd(n) => v + n
    case Exchange(n) => n
    case CompareExchange(was, to) => if v == was then to else v
  }

  /** Where a thread is: outside, spinning, or between taking and releasing the lock. */
  datatype Pc = Idle | Trying(op: Op) | Holding(op: Op) | HasRead(op: Op, ret: int) | HasWritten(op: Op, ret: int) | Aborted {
    predicate Critical() { Holding? || HasRead? || HasWritten? }
  }

  /** An operation of a thread that took effect, and what it returns. */
  datatype Event = Event(thread: nat, op: Op, ret: int)

  datatype System = System(lock: int, cell: int, pcs: seq<Pc>, log: seq<Event>)

  // ------------------------------------------------------------ steps

  ghost predicate Invoke(s: System, s': System, t: nat, op: Op) {
    t < |s.pcs| && s.pcs[t] == Idle && s' == s.(pcs := s.pcs[t := Trying(op)])
  }

  /** One compare-exchange on the lock that does not fail spuriously. */
  ghost predicate Try(s: System, s': System, t: nat) {
    && t < |s.pcs| && s.pcs[t].Trying?
    && s' == if s.lock == 0 then s.(lock := 1, pcs := s.pcs[t := Holding(s.pcs[t].op)]) else s
  }

  ghost predicate Read(s: System, s': System, t: nat) {
    t < |s.pcs| && s.pcs[t].Holding? && s' == s.(pcs := s.pcs[t := HasRead(s.pcs[t].op, s.cell)])
  }

  ghost predicate Write(s: System, s': System, t: nat) {
    && t < |s.pcs| && s.pcs[t].HasRead?
    && var pc := s.pcs[t];
       s' == s.(cell := After(pc.op, pc.ret), pcs := s.pcs[t := HasWritten(pc.op, pc.ret)], log := s.log + [Event(t, pc.op, pc.ret)])
  }

  /** The lock is exchanged for zero; it is asserted that it was one. */
  ghost predicate Release(s: System, s': System, t: nat) {
    && t < |s.pcs| && s.pcs[t].HasWritten?
    && s' == s.(lock := 0, pcs := s.pcs[t := if s.lock == 1 then Idle else Aborted])
  }

  /** A weak compare-exchange that fails although the lock is free: it returns zero all the same. */
  ghost predicate TrySpuriously(s: System, s': System, t: nat) {
    t < |s.pcs| && s.pcs[t].Trying? && s.lock == 0 && s' == s.(pcs := s.pcs[t := Holding(s.pcs[t].op)])
  }

  ghost predicate Step(s: System, s': System) {
    exists t: nat :: StepOf(s, s', t)
  }

  ghost predicate StepOf(s: System, s': System, t: nat) {
    || (exists op :: Invoke(s, s', t, op))
    || Try(s, s', t) || Read(s, s', t) || Write(s, s', t) || Release(s, s', t)
  }

  ghost predicate Start(s: System) {
    s.lock == 0 && s.log == [] && forall t | 0 <= t < |s.pcs| :: s.pcs[t] == Idle
  }

  // ------------------------------------------------------------ sequential histories

  /** The cell after the events, one after the other. */
  function Result(v: int, log: seq<Event>): int {
    if log == [] then v else After(log[|log| - 1].op, Result(v, log[..|log| - 1]))
  }

  /** Every event returns what the cell was before it. */
  ghost predicate Legal(v: int, log: seq<Event>) {
    forall i | 0 <= i < |log| :: log[i].ret == Result(v, log[..i])
  }

  // ------------------------------------------------------------ the invariant

  ghost predicate Alone(pcs: seq<Pc>) {
    forall t, u | 0 <= t < |pcs| && 0 <= u < |pcs| && pcs[t].Critical() && pcs[u].Critical() :: t == u
  }

  ghost predicate Occupied(pcs: seq<Pc>) {
    exists t :: 0 <= t < |pcs| && pcs[t].Critical()
  }

  /** What a thread inside has seen and done. */
  ghost predicate Informed(s: System, t: nat)
    requires t < |s.pcs|
  {
    match s.pcs[t]
    case HasRead(_, ret) => ret == s.cell
    case HasWritten(op, ret) => s.log != [] && s.log[|s.log| - 1] == Event(t, op, ret)
    case Aborted => false
    case _ => true
  }

  ghost predicate Invariant(v: int, s: System) {
    && Alone(s.pcs) && (s.lock == 0 || s.lock == 1) && (s.lock == 1 <==> Occupied(s.pcs))
    && (forall t | 0 <= t < |s.pcs| :: Informed(s, t))
    && Legal(v, s.log) && s.cell == Result(v, s.log)
  }

  lemma Starts(s: System)
    requires Start(s)
    ensures Invariant(s.cell, s)
  {
  }

  /** Changing the place of a thread that stays outside. */
  lemma OutsideKeeps(pcs: seq<Pc>, t: nat, pc: Pc)
    requires t < |pcs| && !pcs[t].Critical() && !pc.Critical() && Alone(pcs)
    ensures Alone(pcs[t := pc]) && (Occupied(pcs[t := pc]) <==> Occupied(pcs))
  {
    var r := pcs[t := pc];
    if Occupied(pcs) {
      var u :| 0 <= u < |pcs| && pcs[u].Critical();
      assert r[u].Critical();
    }
  }

  /** Changing the place of a thread that stays inside. */
  lemma InsideKeeps(pcs: seq<Pc>, t: nat, pc: Pc)
    requires t < |pcs| && pcs[t].Critical() && pc.Critical() && Alone(pcs)
    ensures Alone(pcs[t := pc]) && Occupied(pcs[t := pc]) && Occupied(pcs)
  {
    assert pcs[t := pc][t].Critical();
  }

  lemma Enters(pcs: seq<Pc>, t: nat, pc: Pc)
    requires t < |pcs| && !Occupied(pcs) && pc.Critical()
    ensures Alone(pcs[t := pc]) && Occupied(pcs[t := pc])
  {
    var r := pcs[t := pc];
    assert r[t].Critical();
    forall u | 0 <= u < |r| && u != t ensures !r[u].Critical() { assert !pcs[u].Critical(); }
  }

  lemma Leaves(pcs: seq<Pc>, t: nat, pc: Pc)
    requires t < |pcs| && pcs[t].Critical() && Alone(pcs) && !pc.Critical()
    ensures Alone(pcs[t := pc]) && !Occupied(pcs[t := pc])
  {
    var r := pcs[t := pc];
    forall u | 0 <= u < |r| ensures !r[u].Critical() {
    }
  }

  lemma OneMoreEvent(v: int, log: seq<Event>, e: Event)
    requires Legal(v, log) && e.ret == Result(v, log)
    ensures Legal(v, log + [e]) && Result(v, log + [e]) == After(e.op, e.ret)
  {
    var more := log + [e];
    assert more[..|log|] == log;
    forall i | 0 <= i < |more| ensures more[i].ret == Result(v, more[..i]) {
      if i < |log| { assert more[..i] == log[..i]; }
    }
  }

  lemma WriteKeeps(v: int, s: System, s': System, t: nat)
    requires Invariant(v, s) && Write(s, s', t)
    ensures Invariant(v, s')
  {
    var pc := s.pcs[t];
    assert Informed(s, t);
    InsideKeeps(s.pcs, t, HasWritten(pc.op, pc.ret));
    OneMoreEvent(v, s.log, Event(t, pc.op, pc.ret));
    forall u | 0 <= u < |s'.pcs| ensures Informed(s', u) {
      assert Informed(s, u);
      if u != t { assert !s.pcs[u].Critical(); }
    }
  }

  lemma ReadKeeps(v: int, s: System, s': System, t: nat)
    requires Invariant(v, s) && Read(s, s', t)
    ensures Invariant(v, s')
  {
    InsideKeeps(s.pcs, t, HasRead(s.pcs[t].op, s.cell));
    forall u | 0 <= u < |s'.pcs| ensures Informed(s', u) { assert Informed(s, u); }
  }

  lemma ReleaseKeeps(v: int, s: System, s': System, t: nat)
    requires Invariant(v, s) && Release(s, s', t)
    ensures Invariant(v, s') && s.lock == 1
  {
    assert Occupied(s.pcs);
    Leaves(s.pcs, t, Idle);
    forall u | 0 <= u < |s'.pcs| ensures Informed(s', u) { assert Informed(s, u); }
  }

  lemma TryKeeps(v: int, s: System, s': System, t: nat)
    requires Invariant(v, s) && Try(s, s', t)
    ensures Invariant(v, s')
  {
    if s.lock == 0 {
      Enters(s.pcs, t, Holding(s.pcs[t].op));
      forall u | 0 <= u < |s'.pcs| ensures Informed(s', u) { assert Informed(s, u); }
    }
  }

  lemma InvokeKeeps(v: int, s: System, s': System, t: nat, op: Op)
    requires Invariant(v, s) && Invoke(s, s', t, op)
    ensures Invariant(v, s')
  {
    OutsideKeeps(s.pcs, t, Trying(op));
    forall u | 0 <= u < |s'.pcs| ensures Informed(s', u) { assert Informed(s, u); }
  }

  lemma StepKeeps(v: int, s: System, s': System)
    requires Invariant(v, s) && Step(s, s')
    ensures Invariant(v, s')
  {
    hide Invariant, Invoke, Try, Read, Write, Release;
    var t: nat :| StepOf(s, s', t);
    if op :| Invoke(s, s', t, op) {
      InvokeKeeps(v, s, s', t, op);
    } else if Try(s, s', t) {
      TryKeeps(v, s, s', t);
    } else if Read(s, s', t) {
      ReadKeeps(v, s, s', t);
    } else if Write(s, s', t) {
      WriteKeeps(v, s, s', t);
    } else {
      ReleaseKeeps(v, s, s', t);
    }
  }

  // ------------------------------------------------------------ whole runs

  ghost predicate IsRun(run: seq<System>) {
    run != [] && Start(run[0]) && forall i | 0 <= i < |run| - 1 :: Step(run[i], run[i + 1])
  }

  lemma {:induction false} RunKeeps(run: seq<System>, i: nat)
    requires IsRun(run) && i < |run|
    ensures Invariant(run[0].cell, run[i])
  {
    hide Invariant, Step, Start;
    if i == 0 {
      Starts(run[0]);
    } else {
      RunKeeps(run, i - 1);
      assert Step(run[i - 1], run[i - 1 + 1]);
      StepKeeps(run[0].cell, run[i - 1], run[i]);
    }
  }

  /** At most one thread is between taking and releasing the lock, and the release assertion holds. */
  lemma MutualExclusion(run: seq<System>, i: nat, t: nat, u: nat)
    requires IsRun(run) && i < |run| && t < |run[i].pcs| && u < |run[i].pcs|
    ensures run[i].pcs[t].Critical() && run[i].pcs[u].Critical() ==> t == u
    ensures run[i].pcs[t] != Aborted
    ensures run[i].pcs[t].HasWritten? ==> run[i].lock == 1
  {
    RunKeeps(run, i);
    assert Informed(run[i], t);
  }

  /**
   The operations are linearizable: in the order of their writes they are a legal sequential
   history that leads to the value of the cell, and what a thread is about to return is what its
   event in that history returns.
   */
  lemma Linearizable(run: seq<System>, i: nat, t: nat)
    requires IsRun(run) && i < |run| && t < |run[i].pcs|
    ensures Legal(run[0].cell, run[i].log) && run[i].cell == Result(run[0].cell, run[i].log)
    ensures run[i].pcs[t].HasWritten? ==>
              run[i].log != [] && run[i].log[|run[i].log| - 1] == Event(t, run[i].pcs[t].op, run[i].pcs[t].ret)
  {
    RunKeeps(run, i);
    assert Informed(run[i], t);
  }

  // ------------------------------------------------------------ what the operations do

  /** The operation that a thread is at, if any. */
  ghost predicate At(pc: Pc, op: Op) {
    match pc
    case Trying(o) => o == op
    case Holding(o) => o == op
    case HasRead(o, _) => o == op
    case HasWritten(o, _) => o == op
    case _ => false
  }

  /** An operation stays what it was when it was called, until it returns. */
  lemma OperationKept(s: System, s': System, t: nat, op: Op)
    requires Step(s, s') && t < |s.pcs| && At(s.pcs[t], op)
    ensures t < |s'.pcs| && (At(s'.pcs[t], op) || s'.pcs[t] == Idle || s'.pcs[t] == Aborted)
    ensures s'.pcs[t] == Idle || s'.pcs[t] == Aborted ==> s.pcs[t].HasWritten?
  {
    var u: nat :| StepOf(s, s', u);
  }

  /**
   In every run the cell changes with the log and only with it.  An operation returns what the
   cell held: an addition adds to it, an exchange puts its value there, and a compare-exchange
   puts its value there exactly if what it returns is what was expected.
   */
  lemma StepEffect(run: seq<System>, i: nat)
    requires IsRun(run) && i + 1 < |run|
    ensures run[i + 1].log == run[i].log ==> run[i + 1].cell == run[i].cell
    ensures run[i + 1].log != run[i].log ==>
              exists e :: run[i + 1].log == run[i].log + [e] && e.thread < |run[i].pcs| && At(run[i].pcs[e.thread], e.op)
                && e.ret == run[i].cell
                && (e.op.FetchAdd? ==> run[i + 1].cell == run[i].cell + e.op.n)
                && (e.op.Exchange? ==> run[i + 1].cell == e.op.n)
                && (e.op.CompareExchange? ==> run[i + 1].cell == if e.ret == e.op.was then e.op.to else run[i].cell)
  {
    RunKeeps(run, i);
    var s, s' := run[i], run[i + 1];
    assert Step(s, s');
    var t: nat :| StepOf(s, s', t);
    if s'.log != s.log {
      assert Write(s, s', t) && Informed(s, t);
      var e := Event(t, s.pcs[t].op, s.pcs[t].ret);
      assert s'.log == s.log + [e] && At(s.pcs[e.thread], e.op);
    }
  }

  /** A compare-exchange from zero to something else. */
  predicate Claims(op: Op) {
    op.CompareExchange? && op.was == 0 && op.to != 0
  }

  lemma {:induction false} FirstStays(log: seq<Event>, i: nat)
    requires 0 < i <= |log| && (forall k | 0 <= k < |log| :: Claims(log[k].op)) && Legal(0, log)
    ensures Claims(log[0].op) && Result(0, log[..i]) == log[0].op.to
  {
    assert Claims(log[0].op) && Claims(log[i - 1].op);
    assert log[..i][..i - 1] == log[..i - 1];
    if i > 1 { FirstStays(log, i - 1); }
  }

  /** Of threads that all try to set a cell from zero by compare-exchange exactly the first one succeeds. */
  lemma FirstWins(run: seq<System>, i: nat)
    requires IsRun(run) && i < |run| && run[0].cell == 0 && forall k | 0 <= k < |run[i].log| :: Claims(run[i].log[k].op)
    ensures forall k | 0 <= k < |run[i].log| :: run[i].log[k].ret == 0 <==> k == 0
    ensures if run[i].log == [] then run[i].cell == 0 else Claims(run[i].log[0].op) && run[i].cell == run[i].log[0].op.to
  {
    RunKeeps(run, i);
    var log := run[i].log;
    forall k | 0 <= k < |log| ensures log[k].ret == 0 <==> k == 0 {
      if k > 0 { FirstStays(log, k); }
    }
    if log != [] {
      FirstStays(log, |log|);
      assert log[..|log|] == log;
    }
  }

  // ------------------------------------------------------------ counters

  function Added(log: seq<Event>): int {
    if log == [] then 0
    else Added(log[..|log| - 1]) + if log[|log| - 1].op.FetchAdd? then log[|log| - 1].op.n else 0
  }

  lemma {:induction false} OnlyAdds(v: int, log: seq<Event>)
    requires forall i | 0 <= i < |log| :: log[i].op.FetchAdd?
    ensures Result(v, log) == v + Added(log)
    decreases |log|
  {
    if log != [] { OnlyAdds(v, log[..|log| - 1]); }
  }

  /** A counter is its start plus all the adds that took effect. */
  lemma Counter(run: seq<System>, i: nat)
    requires IsRun(run) && i < |run| && forall k | 0 <= k < |run[i].log| :: run[i].log[k].op.FetchAdd?
    ensures run[i].cell == run[0].cell + Added(run[i].log)
  {
    RunKeeps(run, i);
    OnlyAdds(run[0].cell, run[i].log);
  }

  // ------------------------------------------------------------ spurious failures

  /** After a spurious failure, the thread by itself runs into the release assertion. */
  lemma SpuriousAborts(v: int, s: System, s1: System, t: nat) returns (s2: System, s3: System, s4: System)
    requires Invariant(v, s) && TrySpuriously(s, s1, t)
    ensures Read(s1, s2, t) && Write(s2, s3, t) && Release(s3, s4, t) && s4.pcs[t] == Aborted
  {
    var op := s.pcs[t].op;
    s2 := s1.(pcs := s1.pcs[t := HasRead(op, s1.cell)]);
    s3 := s2.(cell := After(op, s1.cell), pcs := s2.pcs[t := HasWritten(op, s1.cell)], log := s2.log + [Event(t, op, s1.cell)]);
    s4 := s3.(lock := 0, pcs := s3.pcs[t := Aborted]);
  }

  /** And another thread may take the lock at the same time. */
  lemma SpuriousTogether(v: int, s: System, s1: System, t: nat, u: nat) returns (s2: System)
    requires Invariant(v, s) && TrySpuriously(s, s1, t) && u < |s.pcs| && u != t && s.pcs[u].Trying?
    ensures Try(s1, s2, u) && s2.pcs[t].Critical() && s2.pcs[u].Critical()
  {
    s2 := s1.(lock := 1, pcs := s1.pcs[u := Holding(s1.pcs[u].op)]);
  }
}
