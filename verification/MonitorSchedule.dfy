/**
 What the scheduler is free to do. The safety theorems speak of every run there is; here it is proved
 which runs there are: a free mutex goes to any thread that wants it, newcomers included, its holder can
 always go on, a sleeper may wake at any time, and a signal may reach any sleeper on its condition.
 */
module MonitorSchedule {
  import opened Machine
  import opened QueueModel
  import opened QueueLedger
  import opened Threads
  import opened Monitor
  import opened MonitorRuns
  import opened MonitorProgress
  import opened MonitorAtomic

  /** After the run `es` there is a step that leads to `s`. */
  ghost predicate OneStepTo(boot: System, es: seq<Event>, s: System)
    requires ValidRun(boot, es)
  {
    exists e :: ValidRun(boot, es + [e]) && After(boot, es + [e]) == s
  }

  lemma StepLeads(boot: System, es: seq<Event>, e: Event, s: System)
    requires ValidRun(boot, es) && Enabled(After(boot, es), e) && Next(After(boot, es), e) == s
    ensures OneStepTo(boot, es, s)
  {
    RunLast(boot, es, e);
  }

  /** It has begun a wait and been woken, or it has not begun and has something to do. */
  predicate WantsMutex(t: Thread) {
    t.pc == WokenFull || t.pc == WokenEmpty || (t.pc == Idle && t.todo != [])
  }

  /** Thread `t` has just been given the mutex and stands at the test of the wait loop. */
  function Entered(s: System, t: nat): System
    requires t < |s.threads|
  {
    s.(owner := Some(t), threads := s.threads[t := s.threads[t].(pc := Check)])
  }

  lemma EnteredBy(s: System, t: nat)
    requires s.owner == None && t < |s.threads| && WantsMutex(s.threads[t])
    ensures var e := if s.threads[t].pc == Idle then Lock(t) else Relock(t);
            Enabled(s, e) && Next(s, e) == Entered(s, t)
  {
  }

  lemma OwnerWanted(s: System, e: Event, t: nat)
    requires s.owner == None && Enabled(s, e) && Next(s, e).owner == Some(t)
    ensures t < |s.threads| && WantsMutex(s.threads[t])
  {
  }

  /**
   While the mutex is free it can go next to exactly the threads that want it, whoever else is waiting,
   and then they stand at the test of the wait loop with everything else as it was.
   */
  lemma AnyoneMayEnter(boot: System, es: seq<Event>, t: nat)
    requires ValidRun(boot, es) && After(boot, es).owner == None && t < |After(boot, es).threads|
    ensures var s := After(boot, es);
            WantsMutex(s.threads[t]) <==>
            OneStepTo(boot, es, s.(owner := Some(t), threads := s.threads[t := s.threads[t].(pc := Check)]))
  {
    var s := After(boot, es);
    hide Enabled, Next, WantsMutex;
    if WantsMutex(s.threads[t]) {
      EnteredBy(s, t);
      StepLeads(boot, es, if s.threads[t].pc == Idle then Lock(t) else Relock(t), Entered(s, t));
    }
    if OneStepTo(boot, es, Entered(s, t)) {
      var e :| ValidRun(boot, es + [e]) && After(boot, es + [e]) == Entered(s, t);
      assert (es + [e])[..|es|] == es;
      OwnerWanted(s, e, t);
    }
  }

  /** Whoever holds the mutex can go on. */
  lemma HolderMayGoOn(programs: seq<seq<Op>>, initialSize: u64, maxSize: u64, es: seq<Event>)
    requires Fitting(programs, initialSize, maxSize) && ValidRun(Boot(programs, initialSize, maxSize), es)
    requires After(Boot(programs, initialSize, maxSize), es).owner.Some?
    ensures exists e :: ValidRun(Boot(programs, initialSize, maxSize), es + [e]) && !e.Spurious?
                        && After(Boot(programs, initialSize, maxSize), es).owner == Some(e.t)
  {
    var boot := Boot(programs, initialSize, maxSize);
    ReachableGood(programs, initialSize, maxSize, es);
    var e := OwnerCanStep(After(boot, es), initialSize, maxSize, Puts(programs), Gets(programs));
    RunLast(boot, es, e);
  }

  /** A sleeper, on either condition, may wake unsignalled at any time, and nothing else changes. */
  lemma AnySleeperMayWake(boot: System, es: seq<Event>, t: nat)
    requires ValidRun(boot, es) && t < |After(boot, es).threads|
    ensures var s := After(boot, es);
            && (s.threads[t].pc == AsleepFull ==>
                  OneStepTo(boot, es, s.(threads := s.threads[t := s.threads[t].(pc := WokenFull)])))
            && (s.threads[t].pc == AsleepEmpty ==>
                  OneStepTo(boot, es, s.(threads := s.threads[t := s.threads[t].(pc := WokenEmpty)])))
  {
    var s := After(boot, es);
    if s.threads[t].pc == AsleepFull || s.threads[t].pc == AsleepEmpty {
      StepLeads(boot, es, Spurious(t), Next(s, Spurious(t)));
    }
  }

  /** The states a signal may lead to: the signaller has done with it, and one thread it picked has woken. */
  function Signalled(s: System, t: nat, u: nat, woken: PC): System
    requires t < |s.threads| && u < |s.threads|
  {
    var left := s.threads[t := s.threads[t].(pc := Leave)];
    s.(threads := left[u := left[u].(pc := woken)])
  }

  /** A signal may reach every sleeper on its condition, and moves nobody else. */
  lemma AnySleeperMayBeSignalled(boot: System, es: seq<Event>, t: nat, u: nat)
    requires ValidRun(boot, es) && t < |After(boot, es).threads| && u < |After(boot, es).threads|
    ensures var s := After(boot, es);
            && (s.threads[t].pc == SignalEmpty && s.threads[u].pc == AsleepEmpty ==>
                  OneStepTo(boot, es, Signalled(s, t, u, WokenEmpty)))
            && (s.threads[t].pc == SignalFull && s.threads[u].pc == AsleepFull ==>
                  OneStepTo(boot, es, Signalled(s, t, u, WokenFull)))
  {
    var s := After(boot, es);
    if s.threads[t].pc == SignalEmpty && s.threads[u].pc == AsleepEmpty {
      StepLeads(boot, es, Signal(t, Some(u)), Signalled(s, t, u, WokenEmpty));
    }
    if s.threads[t].pc == SignalFull && s.threads[u].pc == AsleepFull {
      StepLeads(boot, es, Signal(t, Some(u)), Signalled(s, t, u, WokenFull));
    }
  }

  // ---------- The stolen item ----------

  /** Take the free mutex and pass the test of the wait loop. */
  lemma Pass(boot: System, es: seq<Event>, s: System, t: nat) returns (s': System)
    requires Reaches(boot, es, s) && s.owner == None && t < |s.threads|
    requires s.threads[t].pc == Idle && s.threads[t].todo != [] && MayPass(s.ledger.q, s.threads[t].todo[0])
    ensures Reaches(boot, es + [Lock(t)] + [Test(t)], s')
    ensures s' == s.(owner := Some(t), threads := s.threads[t := s.threads[t].(pc := Act)])
  {
    hide MayPass;
    var locked := Next(s, Lock(t));
    ReachesNext(boot, es, s, Lock(t));
    s' := Next(locked, Test(t));
    ReachesNext(boot, es + [Lock(t)], locked, Test(t));
    assert s'.threads == s.threads[t := s.threads[t].(pc := Act)];
  }

  /** The change of the queue is done: signal, to whom it may concern, and let the mutex go. */
  lemma SignalAndLeave(boot: System, es: seq<Event>, s: System, t: nat, w: Option<nat>) returns (s': System)
    requires Reaches(boot, es, s) && Enabled(s, Signal(t, w)) && w != Some(t)
    ensures Reaches(boot, es + [Signal(t, w)] + [Unlock(t)], s')
    ensures s'.owner == None && s'.ledger == s.ledger && |s'.threads| == |s.threads|
    ensures s'.threads[t] == s.threads[t].(pc := Idle)
    ensures var woken := if s.threads[t].pc == SignalEmpty then WokenEmpty else WokenFull;
            w.Some? ==> s'.threads[w.value] == s.threads[w.value].(pc := woken)
    ensures forall i :: 0 <= i < |s.threads| && i != t && w != Some(i) ==> s'.threads[i] == s.threads[i]
  {
    hide NoneAt;
    var signalled := Next(s, Signal(t, w));
    ReachesNext(boot, es, s, Signal(t, w));
    s' := Next(signalled, Unlock(t));
    ReachesNext(boot, es + [Signal(t, w)], signalled, Unlock(t));
  }

  /** A newcomer takes the mutex and the item, has nobody to signal, and leaves. */
  lemma TakeAndLeave(boot: System, es: seq<Event>, s: System, b: nat) returns (s': System)
    requires Reaches(boot, es, s) && s.owner == None && b < |s.threads|
    requires s.threads[b].pc == Idle && s.threads[b].todo != [] && s.threads[b].todo[0].Get?
    requires Inv(s.ledger.q) && s.ledger.q.items != [] && NoneAt(s.threads, AsleepFull)
    ensures Reaches(boot, es + [Lock(b)] + [Test(b)] + [Change(b)] + [Signal(b, None)] + [Unlock(b)], s')
    ensures s'.owner == None && s'.ledger == AfterPop(s.ledger)
    ensures var th := s.threads[b];
            s'.threads == s.threads[b := Thread(Idle, th.todo[1..], th.got + [s.ledger.q.items[0]], th.sizes)]
  {
    SizeIsLength(s.ledger.q);
    hide AfterPop, SizeOf, Inv, Reaches;
    var inside := Pass(boot, es, s, b);
    var changed := Next(inside, Change(b));
    ReachesNext(boot, es + [Lock(b)] + [Test(b)], inside, Change(b));
    s' := SignalAndLeave(boot, es + [Lock(b)] + [Test(b)] + [Change(b)], changed, b, None);
  }

  /** The thread that was woken finds nothing and goes back to sleep. */
  lemma SleepAgain(boot: System, es: seq<Event>, s: System, a: nat) returns (s': System)
    requires Reaches(boot, es, s) && s.owner == None && a < |s.threads|
    requires s.threads[a].pc == WokenEmpty && s.threads[a].todo != [] && s.threads[a].todo[0].Get?
    requires Inv(s.ledger.q) && s.ledger.q.items == []
    ensures Reaches(boot, es + [Relock(a)] + [Test(a)], s')
    ensures s'.ledger == s.ledger && s'.threads == s.threads[a := s.threads[a].(pc := AsleepEmpty)]
  {
    SizeIsLength(s.ledger.q);
    var locked := Next(s, Relock(a));
    ReachesNext(boot, es, s, Relock(a));
    s' := Next(locked, Test(a));
    ReachesNext(boot, es + [Relock(a)], locked, Test(a));
  }

  lemma TakenItems(s: System)
    requires Inv(s.ledger.q) && |s.ledger.q.items| == 1
    ensures AfterPop(s.ledger).q.items == [] && Inv(AfterPop(s.ledger).q)
    ensures s.ledger.q.items == [s.ledger.q.items[0]]
  {
    PopInv(s.ledger.q);
  }

  /** The one item goes to `b`, which comes by, and not to `a`, which was woken for it. */
  lemma Steal(boot: System, es: seq<Event>, s: System, a: nat, b: nat) returns (more: seq<Event>, s': System)
    requires Reaches(boot, es, s) && s.owner == None && a < |s.threads| && b < |s.threads| && a != b
    requires s.threads[a].pc == WokenEmpty && s.threads[a].todo != [] && s.threads[a].todo[0].Get?
    requires s.threads[b].pc == Idle && s.threads[b].todo != [] && s.threads[b].todo[0].Get?
    requires Inv(s.ledger.q) && |s.ledger.q.items| == 1 && NoneAt(s.threads, AsleepFull)
    ensures Reaches(boot, more, s') && s'.ledger.q.items == [] && s'.threads == Stolen(s, a, b)
  {
    TakenItems(s);
    hide Inv, NoneAt, AfterPop, Reaches;
    var taken := TakeAndLeave(boot, es, s, b);
    more := es + [Lock(b)] + [Test(b)] + [Change(b)] + [Signal(b, None)] + [Unlock(b)];
    s' := SleepAgain(boot, more, taken, a);
    more := more + [Relock(a)] + [Test(a)];
  }

  /** The threads once `b` has been given what the queue held and `a` is asleep again. */
  function Stolen(s: System, a: nat, b: nat): seq<Thread>
    requires a < |s.threads| && b < |s.threads| && s.threads[b].todo != []
  {
    var th := s.threads[b];
    s.threads[b := Thread(Idle, th.todo[1..], th.got + s.ledger.q.items, th.sizes)]
             [a := s.threads[a].(pc := AsleepEmpty)]
  }

  /**
   The reason for the loop around each wait: from any state in which a consumer has been woken for the
   only item and another one comes by, there is a run in which the newcomer gets the item and the one
   woken goes back to sleep.
   */
  lemma ItemCanBeStolen(programs: seq<seq<Op>>, initialSize: u64, maxSize: u64, es: seq<Event>, a: nat, b: nat)
    requires Fitting(programs, initialSize, maxSize) && ValidRun(Boot(programs, initialSize, maxSize), es)
    requires var s := After(Boot(programs, initialSize, maxSize), es);
             && a < |s.threads| && b < |s.threads| && s.owner == None && |s.ledger.q.items| == 1
             && s.threads[a].pc == WokenEmpty && NoneAt(s.threads, AsleepFull)
             && s.threads[b].pc == Idle && s.threads[b].todo != [] && s.threads[b].todo[0].Get?
    ensures var boot := Boot(programs, initialSize, maxSize);
            exists more :: ValidRun(boot, more)
                        && After(boot, more).threads == Stolen(After(boot, es), a, b)
                        && After(boot, more).ledger.q.items == []
  {
    var boot := Boot(programs, initialSize, maxSize);
    var s := After(boot, es);
    ReachableGood(programs, initialSize, maxSize, es);
    WokenHasGet(s, initialSize, maxSize, Puts(programs), Gets(programs), a);
    hide Good, Inv, Boot, NoneAt, Stolen;
    var more, s' := Steal(boot, es, s, a, b);
  }

  lemma WokenHasGet(s: System, initialSize: u64, maxSize: u64, puts: nat, gets: nat, a: nat)
    requires Good(s, initialSize, maxSize, puts, gets) && a < |s.threads| && s.threads[a].pc == WokenEmpty
    ensures s.threads[a].todo != [] && s.threads[a].todo[0].Get? && Inv(s.ledger.q)
  {
    hide Inv;
  }

  // ---------- and a run in which it is ----------

  /** Two consumers, and a producer of one item. */
  function Programs(x: Pointer): seq<seq<Op>> {
    [[Get], [Get], [Put(x)]]
  }

  lemma FirstSleeps(initialSize: u64, maxSize: u64, x: Pointer) returns (s: System)
    ensures Reaches(Boot(Programs(x), initialSize, maxSize), [] + [Lock(0)] + [Test(0)], s)
    ensures s.owner == None && s.ledger == Start(initialSize, maxSize)
    ensures s.threads ==
            [Thread(AsleepEmpty, [Get], [], []), Thread(Idle, [Get], [], []), Thread(Idle, [Put(x)], [], [])]
  {
    var boot := Boot(Programs(x), initialSize, maxSize);
    assert Empty(boot.ledger.q);
    var locked := Next(boot, Lock(0));
    ReachesNext(boot, [], boot, Lock(0));
    s := Next(locked, Test(0));
    ReachesNext(boot, [] + [Lock(0)], locked, Test(0));
  }

  lemma FirstItemGoesIn(s: System, t: nat, x: Pointer)
    requires Enabled(s, Change(t)) && s.threads[t].todo == [Put(x)] && !Full(s.ledger.q)
    requires Inv(s.ledger.q) && s.ledger.q.items == [] && 16 * s.ledger.q.allocSize < TWO_64
    ensures var n, th := Next(s, Change(t)), s.threads[t];
            && n.threads == s.threads[t := Thread(SignalEmpty, [], th.got, th.sizes + [1])]
            && n.owner == s.owner && n.ledger == AfterPush(s.ledger, x)
  {
    AnsweredLength(s.ledger.q, x);
    hide AfterPush, SizeOf, Inv, Push, Full;
    assert [Put(x)][1..] == [];
  }

  lemma ProducerWakesFirst(boot: System, es: seq<Event>, s: System, x: Pointer) returns (more: seq<Event>, s': System)
    requires Reaches(boot, es, s) && s.owner == None
    requires s.threads ==
             [Thread(AsleepEmpty, [Get], [], []), Thread(Idle, [Get], [], []), Thread(Idle, [Put(x)], [], [])]
    requires Inv(s.ledger.q) && s.ledger.q.items == [] && 16 * s.ledger.q.allocSize < TWO_64
    ensures Reaches(boot, more, s') && s'.owner == None && s'.ledger == AfterPush(s.ledger, x)
    ensures s'.threads ==
            [Thread(WokenEmpty, [Get], [], []), Thread(Idle, [Get], [], []), Thread(Idle, [], [], [1])]
  {
    SizeIsLength(s.ledger.q);
    hide AfterPush, SizeOf, Inv, Reaches;
    var inside := Pass(boot, es, s, 2);
    var changed := Next(inside, Change(2));
    FirstItemGoesIn(inside, 2, x);
    ReachesNext(boot, es + [Lock(2)] + [Test(2)], inside, Change(2));
    assert changed.threads[2] == Thread(SignalEmpty, [], [], [1]);
    hide Next;
    more := es + [Lock(2)] + [Test(2)] + [Change(2)];
    s' := SignalAndLeave(boot, more, changed, 2, Some(0));
    more := more + [Signal(2, Some(0))] + [Unlock(2)];
  }

  lemma ThreadsOfTheft(s: System, x: Pointer)
    requires s.threads ==
             [Thread(WokenEmpty, [Get], [], []), Thread(Idle, [Get], [], []), Thread(Idle, [], [], [1])]
    requires s.ledger.q.items == [x]
    ensures Stolen(s, 0, 1) ==
            [Thread(AsleepEmpty, [Get], [], []), Thread(Idle, [], [x], []), Thread(Idle, [], [], [1])]
  {
    assert [Get][1..] == [];
    assert Stolen(s, 0, 1)[1] == Thread(Idle, [], [x], []);
  }

  lemma OneItemIn(programs: seq<seq<Op>>, initialSize: u64, maxSize: u64, x: Pointer)
    requires Fitting(programs, initialSize, maxSize)
    ensures var l := Start(initialSize, maxSize);
            && Inv(l.q) && l.q.items == [] && 16 * l.q.allocSize < TWO_64
            && Inv(AfterPush(l, x).q) && AfterPush(l, x).q.items == [x]
  {
    var l := Start(initialSize, maxSize);
    InitInv(initialSize, maxSize);
    SizeIsLength(l.q);
    PushInv(l.q, x);
    AnsweredLength(l.q, x);
  }

  /** The first consumer waits, the producer wakes it, the second one comes by and has the item. */
  lemma ItemIsStolen(initialSize: u64, maxSize: u64, x: Pointer)
    requires Fitting([[Get], [Get], [Put(x)]], initialSize, maxSize)
    ensures var boot := Boot([[Get], [Get], [Put(x)]], initialSize, maxSize);
            exists es :: ValidRun(boot, es)
                      && After(boot, es).threads ==
                           [Thread(AsleepEmpty, [Get], [], []), Thread(Idle, [], [x], []), Thread(Idle, [], [], [1])]
                      && After(boot, es).ledger.q.items == []
  {
    hide Boot, Fitting, Inv, Start, AfterPush, ValidRun, After;
    OneItemIn(Programs(x), initialSize, maxSize, x);
    var boot := Boot(Programs(x), initialSize, maxSize);
    var asleep := FirstSleeps(initialSize, maxSize, x);
    var es, woken := ProducerWakesFirst(boot, [] + [Lock(0)] + [Test(0)], asleep, x);
    var more, s' := Steal(boot, es, woken, 0, 1);
    ThreadsOfTheft(woken, x);
    hide Stolen;
  }
}
