/**
 Progress of the monitor. Every run is short: a fixed number of steps per operation, and a few more
 per spurious wakeup. A run that cannot go on has nothing left to do exactly when the programs ask
 for as many items as they supply, give or take what the queue may keep.
 */
module MonitorProgress {
  import opened Machine
  import opened QueueModel
  import opened Threads
  import opened Monitor
  import opened MonitorRuns

  // ---------- Every run is finite ----------

  /**
   How many steps a thread can take before its next change of the queue, over-counted for a signal by
   what it wakes.
   */
  function Rank(pc: PC): nat {
    match pc
    case AsleepFull => 0
    case AsleepEmpty => 0
    case Act => 0
    case Check => 1
    case Idle => 2
    case WokenFull => 2
    case WokenEmpty => 2
    case Leave => 3
    case SignalEmpty => 6
    case SignalFull => 6
  }

  function StepsLeft(t: Thread): nat {
    7 * |t.todo| + Rank(t.pc)
  }

  function Measure(s: System): nat {
    Sum(s.threads, StepsLeft)
  }

  lemma SignalMeasure(s: System, t: nat, w: Option<nat>)
    requires Enabled(s, Signal(t, w))
    ensures Measure(Next(s, Signal(t, w))) < Measure(s)
  {
    hide Sum;
    var left := At(s, t, Leave);
    SumUpdate(s.threads, StepsLeft, t, left.threads[t]);
    if w.Some? {
      SumUpdate(left.threads, StepsLeft, w.value, Next(s, Signal(t, w)).threads[w.value]);
    }
  }

  lemma StepMeasure(s: System, e: Event)
    requires Enabled(s, e)
    ensures !e.Spurious? ==> Measure(Next(s, e)) < Measure(s)
    ensures e.Spurious? ==> Measure(Next(s, e)) == Measure(s) + 2
  {
    hide Sum;
    if e.Signal? {
      SignalMeasure(s, e.t, e.wakes);
    } else {
      var t := Next(s, e).threads[e.t];
      assert Next(s, e).threads == s.threads[e.t := t];
      SumUpdate(s.threads, StepsLeft, e.t, t);
    }
  }

  function SpuriousIn(es: seq<Event>): nat {
    if es == [] then 0 else SpuriousIn(es[..|es| - 1]) + if es[|es| - 1].Spurious? then 1 else 0
  }

  lemma {:induction false} NoneSpurious(es: seq<Event>)
    requires forall k :: 0 <= k < |es| ==> !es[k].Spurious?
    ensures SpuriousIn(es) == 0
  {
    if es != [] {
      NoneSpurious(es[..|es| - 1]);
    }
  }

  lemma {:induction false} RunMeasure(s: System, es: seq<Event>)
    requires ValidRun(s, es)
    ensures |es| + Measure(After(s, es)) <= Measure(s) + 3 * SpuriousIn(es)
    decreases |es|
  {
    if es != [] {
      RunMeasure(s, es[..|es| - 1]);
      StepMeasure(After(s, es[..|es| - 1]), es[|es| - 1]);
    }
  }

  lemma {:induction false} BootMeasure(programs: seq<seq<Op>>, initialSize: u64, maxSize: u64)
    ensures Measure(Boot(programs, initialSize, maxSize)) == 7 * (Puts(programs) + Gets(programs)) + 2 * |programs|
  {
    if programs != [] {
      BootMeasure(programs[1..], initialSize, maxSize);
      var rest := Boot(programs[1..], initialSize, maxSize).threads;
      assert Boot(programs, initialSize, maxSize).threads[1..] == rest;
      PutsAndGets(programs[0]);
    }
  }

  lemma {:induction false} PutsAndGets(ops: seq<Op>)
    ensures PutsIn(ops) + GetsIn(ops) == |ops|
  {
    if ops != [] {
      PutsAndGets(ops[1..]);
    }
  }

  /** No run goes on for ever: without spurious wakeups, at most 7 steps an operation and 2 a thread. */
  lemma EveryRunIsFinite(programs: seq<seq<Op>>, initialSize: u64, maxSize: u64, es: seq<Event>)
    requires ValidRun(Boot(programs, initialSize, maxSize), es)
    ensures |es| <= 7 * (Puts(programs) + Gets(programs)) + 2 * |programs| + 3 * SpuriousIn(es)
    ensures (forall k :: 0 <= k < |es| ==> !es[k].Spurious?) ==>
              |es| <= 7 * (Puts(programs) + Gets(programs)) + 2 * |programs|
  {
    RunMeasure(Boot(programs, initialSize, maxSize), es);
    BootMeasure(programs, initialSize, maxSize);
    if forall k :: 0 <= k < |es| ==> !es[k].Spurious? {
      NoneSpurious(es);
    }
  }

  // ---------- When nothing can move ----------

  ghost predicate Stuck(s: System) {
    forall e :: Enabled(s, e) ==> e.Spurious?
  }

  predicate Done(t: Thread) {
    t.pc == Idle && t.todo == []
  }

  predicate Finished(s: System) {
    forall i :: 0 <= i < |s.threads| ==> Done(s.threads[i])
  }

  predicate OnlyPuts(ops: seq<Op>) {
    forall k :: 0 <= k < |ops| ==> ops[k].Put?
  }

  predicate OnlyGets(ops: seq<Op>) {
    forall k :: 0 <= k < |ops| ==> ops[k].Get?
  }

  /** Every thread is a producer or a consumer. */
  predicate Roles(programs: seq<seq<Op>>) {
    forall i :: 0 <= i < |programs| ==> OnlyPuts(programs[i]) || OnlyGets(programs[i])
  }

  predicate RolesKept(s: System) {
    forall i :: 0 <= i < |s.threads| ==> OnlyPuts(s.threads[i].todo) || OnlyGets(s.threads[i].todo)
  }

  lemma StepKeepsRoles(s: System, e: Event)
    requires Enabled(s, e) && RolesKept(s)
    ensures RolesKept(Next(s, e))
  {
    hide SizeOf, Push, Pop;
  }

  lemma {:induction false} RunKeepsRoles(programs: seq<seq<Op>>, initialSize: u64, maxSize: u64, es: seq<Event>)
    requires Roles(programs) && ValidRun(Boot(programs, initialSize, maxSize), es)
    ensures RolesKept(After(Boot(programs, initialSize, maxSize), es))
    decreases |es|
  {
    var boot := Boot(programs, initialSize, maxSize);
    if es != [] {
      RunKeepsRoles(programs, initialSize, maxSize, es[..|es| - 1]);
      StepKeepsRoles(After(boot, es[..|es| - 1]), es[|es| - 1]);
      hide RolesKept, Next, Enabled;
    }
  }

  /** Whoever holds the mutex can go on; a signal can always be sent, to a sleeper or to nobody. */
  lemma OwnerCanStep(s: System, initialSize: u64, maxSize: u64, puts: nat, gets: nat) returns (e: Event)
    requires Good(s, initialSize, maxSize, puts, gets) && s.owner.Some?
    ensures Enabled(s, e) && !e.Spurious?
  {
    var t := s.owner.value;
    assert InCriticalSection(s.threads[t]);
    var pc := s.threads[t].pc;
    if pc == Check {
      e := Test(t);
    } else if pc == Act {
      e := Change(t);
    } else if pc == Leave {
      e := Unlock(t);
    } else {
      var asleep := if pc == SignalEmpty then AsleepEmpty else AsleepFull;
      if u :| 0 <= u < |s.threads| && s.threads[u].pc == asleep {
        e := Signal(t, Some(u));
      } else {
        e := Signal(t, None);
      }
    }
  }

  /** Whoever has not finished is asleep unsignalled, on a condition that really does not hold. */
  lemma StuckShape(s: System, initialSize: u64, maxSize: u64, puts: nat, gets: nat, i: nat)
    requires Good(s, initialSize, maxSize, puts, gets) && Stuck(s)
    requires i < |s.threads|
    ensures Done(s.threads[i]) || s.threads[i].pc in {AsleepFull, AsleepEmpty}
    ensures s.threads[i].pc == AsleepEmpty ==> s.ledger.q.items == []
    ensures s.threads[i].pc == AsleepFull ==> |s.ledger.q.items| == maxSize > 0
  {
    if s.owner.Some? {
      var e := OwnerCanStep(s, initialSize, maxSize, puts, gets);
      assert false;
    }
    assert !Enabled(s, Lock(i)) && !Enabled(s, Relock(i));
    forall j | 0 <= j < |s.threads|
      ensures ServesEmpty(s.threads[j]) == 0 && ServesFull(s.threads[j]) == 0
    {
      assert !Enabled(s, Relock(j));
      assert !InCriticalSection(s.threads[j]);
    }
    SumZero(s.threads, ServesEmpty);
    SumZero(s.threads, ServesFull);
    SumAtLeast(s.threads, SleepsOnEmpty, i);
    SumAtLeast(s.threads, SleepsOnFull, i);
  }

  lemma {:induction false} NoPutsIn(ops: seq<Op>)
    ensures OnlyGets(ops) ==> PutsIn(ops) == 0
    ensures OnlyPuts(ops) ==> GetsIn(ops) == 0
    ensures ops != [] && ops[0].Put? ==> PutsIn(ops) > 0
    ensures ops != [] && ops[0].Get? ==> GetsIn(ops) > 0
  {
    if ops != [] {
      NoPutsIn(ops[1..]);
    }
  }

  /** Stuck with a consumer asleep: all the puts are done, the queue is empty, and some get is left. */
  lemma StarvedCounts(s: System, initialSize: u64, maxSize: u64, puts: nat, gets: nat, i: nat)
    requires Good(s, initialSize, maxSize, puts, gets) && Stuck(s) && RolesKept(s)
    requires i < |s.threads| && s.threads[i].pc == AsleepEmpty
    ensures puts < gets
  {
    StuckShape(s, initialSize, maxSize, puts, gets, i);
    forall j | 0 <= j < |s.threads|
      ensures PutsLeft(s.threads[j]) == 0
    {
      StuckShape(s, initialSize, maxSize, puts, gets, j);
      NoPutsIn(s.threads[j].todo);
    }
    SumZero(s.threads, PutsLeft);
    NoPutsIn(s.threads[i].todo);
    SumAtLeast(s.threads, GetsLeft, i);
  }

  /** Stuck with a producer asleep: all the gets are done, the queue is full, and some put is left. */
  lemma GluttedCounts(s: System, initialSize: u64, maxSize: u64, puts: nat, gets: nat, i: nat)
    requires Good(s, initialSize, maxSize, puts, gets) && Stuck(s) && RolesKept(s)
    requires i < |s.threads| && s.threads[i].pc == AsleepFull
    ensures maxSize > 0 && puts > gets + maxSize
  {
    StuckShape(s, initialSize, maxSize, puts, gets, i);
    forall j | 0 <= j < |s.threads|
      ensures GetsLeft(s.threads[j]) == 0
    {
      StuckShape(s, initialSize, maxSize, puts, gets, j);
      NoPutsIn(s.threads[j].todo);
    }
    SumZero(s.threads, GetsLeft);
    NoPutsIn(s.threads[i].todo);
    SumAtLeast(s.threads, PutsLeft, i);
  }

  /** The supply covers the demand, and what is left over fits in the queue. */
  predicate Balanced(programs: seq<seq<Op>>, maxSize: u64) {
    Gets(programs) <= Puts(programs) && (maxSize > 0 ==> Puts(programs) <= Gets(programs) + maxSize)
  }

  /**
   Producers and consumers in any numbers, any maximum size, spurious wakeups or none: a run that can
   go no further has finished every program exactly when the programs are balanced, and then the
   queue holds exactly the surplus.
   */
  lemma StuckIsFinished(programs: seq<seq<Op>>, initialSize: u64, maxSize: u64, es: seq<Event>)
    requires Fitting(programs, initialSize, maxSize)
    requires forall i :: 0 <= i < |programs| ==> OnlyPuts(programs[i]) || OnlyGets(programs[i])
    requires ValidRun(Boot(programs, initialSize, maxSize), es)
    requires Stuck(After(Boot(programs, initialSize, maxSize), es))
    ensures var s := After(Boot(programs, initialSize, maxSize), es);
            && (Finished(s) <==> Balanced(programs, maxSize))
            && (Finished(s) ==> |s.ledger.q.items| == Puts(programs) - Gets(programs))
  {
    var s := After(Boot(programs, initialSize, maxSize), es);
    ReachableGood(programs, initialSize, maxSize, es);
    RunKeepsRoles(programs, initialSize, maxSize, es);
    if Finished(s) {
      SumZero(s.threads, PutsLeft);
      SumZero(s.threads, GetsLeft);
    } else {
      var i :| 0 <= i < |s.threads| && !Done(s.threads[i]);
      StuckShape(s, initialSize, maxSize, Puts(programs), Gets(programs), i);
      if s.threads[i].pc == AsleepEmpty {
        StarvedCounts(s, initialSize, maxSize, Puts(programs), Gets(programs), i);
      } else {
        GluttedCounts(s, initialSize, maxSize, Puts(programs), Gets(programs), i);
      }
    }
  }

  lemma RunLast(s: System, es: seq<Event>, e: Event)
    requires ValidRun(s, es) && Enabled(After(s, es), e)
    ensures ValidRun(s, es + [e]) && After(s, es + [e]) == Next(After(s, es), e)
  {
    assert (es + [e])[..|es|] == es;
  }

  lemma {:induction false} ExtendUntilStuck(s: System, es: seq<Event>) returns (more: seq<Event>)
    requires ValidRun(s, es)
    ensures es <= more && ValidRun(s, more) && Stuck(After(s, more))
    decreases Measure(After(s, es))
  {
    if Stuck(After(s, es)) {
      more := es;
    } else {
      var e :| Enabled(After(s, es), e) && !e.Spurious?;
      StepMeasure(After(s, es), e);
      RunLast(s, es, e);
      more := ExtendUntilStuck(s, es + [e]);
    }
  }

  /** No deadlock: from wherever the scheduler has got to, balanced programs can still all finish. */
  lemma EveryRunCanFinish(programs: seq<seq<Op>>, initialSize: u64, maxSize: u64, es: seq<Event>)
    requires Fitting(programs, initialSize, maxSize) && Balanced(programs, maxSize)
    requires forall i :: 0 <= i < |programs| ==> OnlyPuts(programs[i]) || OnlyGets(programs[i])
    requires ValidRun(Boot(programs, initialSize, maxSize), es)
    ensures exists more :: es <= more && ValidRun(Boot(programs, initialSize, maxSize), more)
                           && Finished(After(Boot(programs, initialSize, maxSize), more))
  {
    var more := ExtendUntilStuck(Boot(programs, initialSize, maxSize), es);
    StuckIsFinished(programs, initialSize, maxSize, more);
  }

  /** The roles matter: a thread that waits for an item only it would have put is asleep for good. */
  lemma MixedRolesCanDeadlock(initialSize: u64, maxSize: u64, x: Pointer)
    ensures var programs := [[Get, Put(x)]];
            var boot := Boot(programs, initialSize, maxSize);
            && Balanced(programs, maxSize)
            && ValidRun(boot, [Lock(0), Test(0)])
            && Stuck(After(boot, [Lock(0), Test(0)]))
            && !Finished(After(boot, [Lock(0), Test(0)]))
  {
    var programs := [[Get, Put(x)]];
    var boot := Boot(programs, initialSize, maxSize);
    assert [Get, Put(x)][1..] == [Put(x)];
    PutsAndGets([Put(x)]);
    PutsAndGets([Get, Put(x)]);
    assert PutsIn([Put(x)]) == 1;
    assert programs[1..] == [];
    RunLast(boot, [], Lock(0));
    assert [] + [Lock(0)] == [Lock(0)];
    RunLast(boot, [Lock(0)], Test(0));
    assert [Lock(0)] + [Test(0)] == [Lock(0), Test(0)];
    var s := After(boot, [Lock(0), Test(0)]);
    assert Empty(s.ledger.q);
    assert s.threads == [Thread(AsleepEmpty, [Get, Put(x)], [], [])];
    assert !Done(s.threads[0]);
  }
}
