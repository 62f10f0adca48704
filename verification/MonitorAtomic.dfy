/**
 The monitor against the simplest machine with the same purpose: threads that put and get in single
 steps, where a put waits for room and a get for an item. Every run of the monitor is a run of that
 machine, taken in the order in which the threads change the queue, and the two come to rest in the
 same states; so the monitor can deadlock on exactly the programs on which the simple machine can.
 */
module MonitorAtomic {
  import opened Machine
  import opened QueueModel
  import opened QueueLedger
  import opened Threads
  import opened Monitor
  import opened MonitorRuns
  import opened MonitorProgress

  /** What a thread has yet to do, the items it has been given, and the lengths it has been answered. */
  datatype Worker = Worker(todo: seq<Op>, got: seq<Pointer>, sizes: seq<int>)

  datatype Atomic = Atomic(workers: seq<Worker>, items: seq<Pointer>)

  function Begin(programs: seq<seq<Op>>): Atomic {
    Atomic(seq(|programs|, i requires 0 <= i < |programs| => Worker(programs[i], [], [])), [])
  }

  predicate CanMove(a: Atomic, maxSize: u64, t: nat) {
    && t < |a.workers| && a.workers[t].todo != []
    && match a.workers[t].todo[0]
       case Put(_) => maxSize > 0 ==> |a.items| < maxSize
       case Get => a.items != []
  }

  function Move(a: Atomic, maxSize: u64, t: nat): Atomic
    requires CanMove(a, maxSize, t)
  {
    var w := a.workers[t];
    match w.todo[0]
    case Put(x) =>
      Atomic(a.workers[t := Worker(w.todo[1..], w.got, w.sizes + [|a.items| + 1])], a.items + [x])
    case Get =>
      Atomic(a.workers[t := Worker(w.todo[1..], w.got + [a.items[0]], w.sizes)], a.items[1..])
  }

  predicate Playable(a: Atomic, maxSize: u64, ts: seq<nat>)
    decreases |ts|, 0
  {
    ts != [] ==> Playable(a, maxSize, ts[..|ts| - 1])
                 && CanMove(Played(a, maxSize, ts[..|ts| - 1]), maxSize, ts[|ts| - 1])
  }

  function Played(a: Atomic, maxSize: u64, ts: seq<nat>): Atomic
    requires Playable(a, maxSize, ts)
    decreases |ts|, 1
  {
    if ts == [] then a else Move(Played(a, maxSize, ts[..|ts| - 1]), maxSize, ts[|ts| - 1])
  }

  lemma PlayLast(a: Atomic, maxSize: u64, ts: seq<nat>, t: nat)
    requires Playable(a, maxSize, ts) && CanMove(Played(a, maxSize, ts), maxSize, t)
    ensures Playable(a, maxSize, ts + [t])
    ensures Played(a, maxSize, ts + [t]) == Move(Played(a, maxSize, ts), maxSize, t)
  {
    assert (ts + [t])[..|ts|] == ts;
  }

  ghost predicate Blocked(a: Atomic, maxSize: u64) {
    forall t :: !CanMove(a, maxSize, t)
  }

  predicate AllDone(a: Atomic) {
    forall t :: 0 <= t < |a.workers| ==> a.workers[t].todo == []
  }

  // ---------- What of the monitor shows ----------

  function Shown(t: Thread): Worker {
    Worker(t.todo, t.got, t.sizes)
  }

  function View(s: System): Atomic {
    Atomic(seq(|s.threads|, i requires 0 <= i < |s.threads| => Shown(s.threads[i])), s.ledger.q.items)
  }

  /** The threads in the order in which they change the queue. */
  function Order(es: seq<Event>): seq<nat> {
    if es == [] then [] else
    var e := es[|es| - 1];
    if e.Change? then Order(es[..|es| - 1]) + [e.t] else Order(es[..|es| - 1])
  }

  /** What a thread past its wait loop may rely on is what lets the simple machine move. */
  lemma MayPassIsCanMove(s: System, maxSize: u64, t: nat)
    requires t < |s.threads| && s.threads[t].todo != []
    requires Inv(s.ledger.q) && s.ledger.q.maxSize == maxSize
    ensures MayPass(s.ledger.q, s.threads[t].todo[0]) <==> CanMove(View(s), maxSize, t)
  {
    SizeIsLength(s.ledger.q);
  }

  lemma AnsweredLength(q: Queue, x: Pointer)
    requires Inv(q) && !Full(q) && 16 * q.allocSize < TWO_64
    ensures SizeOf(Push(q, x)) == |q.items| + 1 && Push(q, x).items == q.items + [x]
  {
    PushInv(q, x);
  }

  lemma TakenItems(q: Queue)
    requires q.items != []
    ensures Pop(q).items == q.items[1..] && Oldest(q.items) == q.items[0]
  {
  }

  lemma ChangeIsMove(s: System, t: nat, maxSize: u64)
    requires Enabled(s, Change(t)) && MayPass(s.ledger.q, s.threads[t].todo[0])
    requires Inv(s.ledger.q) && 16 * s.ledger.q.allocSize < TWO_64 && s.ledger.q.maxSize == maxSize
    ensures CanMove(View(s), maxSize, t) && View(Next(s, Change(t))) == Move(View(s), maxSize, t)
  {
    MayPassIsCanMove(s, maxSize, t);
    match s.threads[t].todo[0]
    case Put(x) => AnsweredLength(s.ledger.q, x);
    case Get => TakenItems(s.ledger.q);
    hide Push, Pop, SizeOf, Inv, Oldest, Full;
  }

  lemma OthersDoNotShow(s: System, e: Event)
    requires Enabled(s, e) && !e.Change?
    ensures View(Next(s, e)) == View(s)
  {
  }

  lemma GoodMeans(s: System, initialSize: u64, maxSize: u64, puts: nat, gets: nat)
    requires Fits(initialSize, Cap(maxSize, puts)) && Good(s, initialSize, maxSize, puts, gets)
    ensures Inv(s.ledger.q) && 16 * s.ledger.q.allocSize < TWO_64 && s.ledger.q.maxSize == maxSize
    ensures forall i :: 0 <= i < |s.threads| && s.threads[i].pc == Act && s.threads[i].todo != [] ==>
              MayPass(s.ledger.q, s.threads[i].todo[0])
    ensures forall i :: 0 <= i < |s.threads| && s.threads[i].pc in {AsleepFull, AsleepEmpty} ==>
              s.threads[i].todo != [] && (s.threads[i].todo[0].Put? <==> s.threads[i].pc == AsleepFull)
  {
    hide Inv, MoveBound, AllocBound;
    AllocFits(initialSize, s.ledger.peak, Cap(maxSize, puts));
  }

  lemma BootShows(programs: seq<seq<Op>>, initialSize: u64, maxSize: u64)
    ensures View(Boot(programs, initialSize, maxSize)) == Begin(programs)
  {
  }

  /**
   The monitor is atomic: what a run has answered, served and left over is what the simple machine
   makes of the same operations, one at a time in the order of the changes.
   */
  lemma {:induction false} RunIsPlay(programs: seq<seq<Op>>, initialSize: u64, maxSize: u64, es: seq<Event>)
    requires Fitting(programs, initialSize, maxSize)
    requires ValidRun(Boot(programs, initialSize, maxSize), es)
    ensures Playable(Begin(programs), maxSize, Order(es))
    ensures Played(Begin(programs), maxSize, Order(es)) == View(After(Boot(programs, initialSize, maxSize), es))
    decreases |es|
  {
    hide View, Next, Enabled, Good, CanMove, Move, Inv, MayPass, Boot, Begin;
    var boot := Boot(programs, initialSize, maxSize);
    if es == [] {
      BootShows(programs, initialSize, maxSize);
    } else {
      var before, e := es[..|es| - 1], es[|es| - 1];
      var s := After(boot, before);
      RunIsPlay(programs, initialSize, maxSize, before);
      if e.Change? {
        ReachableGood(programs, initialSize, maxSize, before);
        ChangePlays(s, e.t, initialSize, maxSize, Puts(programs), Gets(programs));
        PlayLast(Begin(programs), maxSize, Order(before), e.t);
      } else {
        OthersDoNotShow(s, e);
      }
    }
  }

  lemma ChangePlays(s: System, t: nat, initialSize: u64, maxSize: u64, puts: nat, gets: nat)
    requires Fits(initialSize, Cap(maxSize, puts)) && Good(s, initialSize, maxSize, puts, gets)
    requires Enabled(s, Change(t))
    ensures CanMove(View(s), maxSize, t) && View(Next(s, Change(t))) == Move(View(s), maxSize, t)
  {
    hide Good, View, Next, Move, CanMove, MayPass, Inv;
    GoodMeans(s, initialSize, maxSize, puts, gets);
    ChangeIsMove(s, t, maxSize);
  }

  /** Where the monitor can only go on by spurious wakeups, the simple machine cannot go on. */
  lemma StuckIsBlocked(s: System, initialSize: u64, maxSize: u64, puts: nat, gets: nat)
    requires Fits(initialSize, Cap(maxSize, puts)) && Good(s, initialSize, maxSize, puts, gets) && Stuck(s)
    ensures Blocked(View(s), maxSize) && (Finished(s) <==> AllDone(View(s)))
  {
    GoodMeans(s, initialSize, maxSize, puts, gets);
    hide Good, Stuck, Inv;
    forall t | 0 <= t < |s.threads|
      ensures !CanMove(View(s), maxSize, t) && (Done(s.threads[t]) <==> View(s).workers[t].todo == [])
    {
      StuckShape(s, initialSize, maxSize, puts, gets, t);
    }
  }

  // ---------- Every run of the simple machine is one of the monitor ----------

  /** Nobody is inside and nobody waits. */
  predicate Quiet(s: System) {
    s.owner == None && forall i :: 0 <= i < |s.threads| ==> s.threads[i].pc == Idle
  }

  /** A system reached from `boot` by the run `es`. */
  ghost predicate Reaches(boot: System, es: seq<Event>, s: System) {
    ValidRun(boot, es) && After(boot, es) == s
  }

  lemma ReachesNext(boot: System, es: seq<Event>, s: System, e: Event)
    requires Reaches(boot, es, s) && Enabled(s, e)
    ensures Reaches(boot, es + [e], Next(s, e))
  {
    hide Enabled, Next;
    RunLast(boot, es, e);
  }

  /** Lock the mutex and find the wait loop's condition false: on to the change of the queue. */
  lemma Enter(s: System, t: nat) returns (s': System)
    requires Quiet(s) && t < |s.threads| && s.threads[t].todo != []
    requires MayPass(s.ledger.q, s.threads[t].todo[0])
    ensures Enabled(s, Lock(t)) && Enabled(Next(s, Lock(t)), Test(t))
    ensures s' == Next(Next(s, Lock(t)), Test(t)) == At(s, t, Act).(owner := Some(t))
  {
    s' := Next(Next(s, Lock(t)), Test(t));
  }

  /** Signal nobody, as nobody sleeps, and let the mutex go. */
  lemma LeaveQuiet(s: System, t: nat) returns (s': System)
    requires t < |s.threads| && s.threads[t].pc in {SignalEmpty, SignalFull}
    requires forall i :: 0 <= i < |s.threads| && i != t ==> s.threads[i].pc == Idle
    ensures Enabled(s, Signal(t, None)) && Enabled(Next(s, Signal(t, None)), Unlock(t))
    ensures s' == Next(Next(s, Signal(t, None)), Unlock(t)) && Quiet(s')
  {
    s' := Next(Next(s, Signal(t, None)), Unlock(t));
  }

  /** One operation done without interruption, from quiet to quiet. */
  lemma OneOperation(boot: System, es: seq<Event>, s: System, t: nat, maxSize: u64) returns (s': System)
    requires Reaches(boot, es, s) && Quiet(s) && CanMove(View(s), maxSize, t)
    requires Inv(s.ledger.q) && 16 * s.ledger.q.allocSize < TWO_64 && s.ledger.q.maxSize == maxSize
    ensures Reaches(boot, es + [Lock(t)] + [Test(t)] + [Change(t)] + [Signal(t, None)] + [Unlock(t)], s')
    ensures Quiet(s') && View(s') == Move(View(s), maxSize, t)
  {
    MayPassIsCanMove(s, maxSize, t);
    var inside := Enter(s, t);
    ReachesNext(boot, es, s, Lock(t));
    ReachesNext(boot, es + [Lock(t)], Next(s, Lock(t)), Test(t));
    OthersDoNotShow(s, Lock(t));
    OthersDoNotShow(Next(s, Lock(t)), Test(t));
    ChangeIsMove(inside, t, maxSize);
    ReachesNext(boot, es + [Lock(t)] + [Test(t)], inside, Change(t));
    var changed := Next(inside, Change(t));
    s' := LeaveQuiet(changed, t);
    ReachesNext(boot, es + [Lock(t)] + [Test(t)] + [Change(t)], changed, Signal(t, None));
    ReachesNext(boot, es + [Lock(t)] + [Test(t)] + [Change(t)] + [Signal(t, None)],
                Next(changed, Signal(t, None)), Unlock(t));
    OthersDoNotShow(changed, Signal(t, None));
    OthersDoNotShow(Next(changed, Signal(t, None)), Unlock(t));
  }

  lemma BootIsQuiet(programs: seq<seq<Op>>, initialSize: u64, maxSize: u64)
    ensures Quiet(Boot(programs, initialSize, maxSize)) && |Boot(programs, initialSize, maxSize).threads| == |programs|
  {
  }

  /** Whatever the simple machine does, the monitor can do, and end where nobody is inside or waiting. */
  lemma {:induction false} PlayIsRun(programs: seq<seq<Op>>, initialSize: u64, maxSize: u64, ts: seq<nat>)
    returns (es: seq<Event>, s: System)
    requires Fitting(programs, initialSize, maxSize) && Playable(Begin(programs), maxSize, ts)
    ensures Reaches(Boot(programs, initialSize, maxSize), es, s) && Quiet(s)
    ensures View(s) == Played(Begin(programs), maxSize, ts)
    decreases |ts|
  {
    hide View, Good, CanMove, Move, Inv, Boot, Begin, Quiet;
    var boot := Boot(programs, initialSize, maxSize);
    if ts == [] {
      es, s := [], boot;
      BootShows(programs, initialSize, maxSize);
      BootIsQuiet(programs, initialSize, maxSize);
    } else {
      var t := ts[|ts| - 1];
      var before, quiet := PlayIsRun(programs, initialSize, maxSize, ts[..|ts| - 1]);
      ReachableGood(programs, initialSize, maxSize, before);
      GoodMeans(quiet, initialSize, maxSize, Puts(programs), Gets(programs));
      s := OneOperation(boot, before, quiet, t, maxSize);
      es := before + [Lock(t)] + [Test(t)] + [Change(t)] + [Signal(t, None)] + [Unlock(t)];
    }
  }

  /** The first `n` threads have finished or gone to sleep; the others have not begun. */
  predicate Settled(s: System, n: nat) {
    && s.owner == None
    && forall i :: 0 <= i < |s.threads| ==>
         if i < n && s.threads[i].todo != [] then s.threads[i].pc in {AsleepFull, AsleepEmpty}
         else s.threads[i].pc == Idle
  }

  /** A thread that cannot move finds so at the test of its wait loop, and falls asleep. */
  lemma FallAsleep(s: System, t: nat) returns (s': System)
    requires Settled(s, t) && t < |s.threads| && s.threads[t].todo != []
    requires !MayPass(s.ledger.q, s.threads[t].todo[0])
    ensures Enabled(s, Lock(t)) && Enabled(Next(s, Lock(t)), Test(t))
    ensures s' == Next(Next(s, Lock(t)), Test(t)) && Settled(s', t + 1)
    ensures s'.ledger == s.ledger && |s'.threads| == |s.threads|
  {
    s' := Next(Next(s, Lock(t)), Test(t));
  }

  lemma SettleOne(boot: System, es: seq<Event>, s: System, t: nat, maxSize: u64)
    returns (more: seq<Event>, s': System)
    requires Reaches(boot, es, s) && Settled(s, t) && t < |s.threads| && Blocked(View(s), maxSize)
    requires Inv(s.ledger.q) && s.ledger.q.maxSize == maxSize
    ensures Reaches(boot, more, s') && Settled(s', t + 1) && View(s') == View(s)
    ensures s'.ledger == s.ledger && |s'.threads| == |s.threads|
  {
    more, s' := es, s;
    if s.threads[t].todo != [] {
      MayPassIsCanMove(s, maxSize, t);
      hide MayPass, CanMove;
      s' := FallAsleep(s, t);
      more := es + [Lock(t)] + [Test(t)];
      hide Settled, Enabled, Next, View;
      ReachesNext(boot, es, s, Lock(t));
      ReachesNext(boot, es + [Lock(t)], Next(s, Lock(t)), Test(t));
      OthersDoNotShow(s, Lock(t));
      OthersDoNotShow(Next(s, Lock(t)), Test(t));
    }
  }

  lemma {:induction false} SettleAll(boot: System, es: seq<Event>, s: System, n: nat, maxSize: u64)
    returns (more: seq<Event>, s': System)
    requires Reaches(boot, es, s) && Quiet(s) && n <= |s.threads| && Blocked(View(s), maxSize)
    requires Inv(s.ledger.q) && s.ledger.q.maxSize == maxSize
    ensures Reaches(boot, more, s') && Settled(s', n) && View(s') == View(s)
    ensures s'.ledger == s.ledger && |s'.threads| == |s.threads|
  {
    if n == 0 {
      more, s' := es, s;
    } else {
      more, s' := SettleAll(boot, es, s, n - 1, maxSize);
      more, s' := SettleOne(boot, more, s', n - 1, maxSize);
    }
    hide Settled, Quiet, View, Inv, Reaches, Blocked;
  }

  lemma SettledIsStuck(s: System)
    requires Settled(s, |s.threads|)
    ensures Stuck(s)
  {
  }

  // ---------- The two come to rest alike ----------

  /** Some run of the monitor comes to rest showing `a`. */
  ghost predicate MonitorRests(programs: seq<seq<Op>>, initialSize: u64, maxSize: u64, a: Atomic) {
    exists es :: ValidRun(Boot(programs, initialSize, maxSize), es)
              && Stuck(After(Boot(programs, initialSize, maxSize), es))
              && View(After(Boot(programs, initialSize, maxSize), es)) == a
  }

  /** Some run of the simple machine comes to rest in `a`. */
  ghost predicate AtomicRests(programs: seq<seq<Op>>, maxSize: u64, a: Atomic) {
    && Blocked(a, maxSize)
    && exists ts :: Playable(Begin(programs), maxSize, ts) && Played(Begin(programs), maxSize, ts) == a
  }

  lemma RestOfMonitor(programs: seq<seq<Op>>, initialSize: u64, maxSize: u64, es: seq<Event>)
    requires Fitting(programs, initialSize, maxSize)
    requires ValidRun(Boot(programs, initialSize, maxSize), es)
    requires Stuck(After(Boot(programs, initialSize, maxSize), es))
    ensures AtomicRests(programs, maxSize, View(After(Boot(programs, initialSize, maxSize), es)))
    ensures var s := After(Boot(programs, initialSize, maxSize), es); Finished(s) <==> AllDone(View(s))
  {
    hide View, Stuck, Good, Blocked, Finished, AllDone, Boot, Begin;
    RunIsPlay(programs, initialSize, maxSize, es);
    ReachableGood(programs, initialSize, maxSize, es);
    StuckIsBlocked(After(Boot(programs, initialSize, maxSize), es), initialSize, maxSize,
                   Puts(programs), Gets(programs));
  }

  lemma RestOfAtomic(programs: seq<seq<Op>>, initialSize: u64, maxSize: u64, ts: seq<nat>)
    requires Fitting(programs, initialSize, maxSize) && Playable(Begin(programs), maxSize, ts)
    requires Blocked(Played(Begin(programs), maxSize, ts), maxSize)
    ensures MonitorRests(programs, initialSize, maxSize, Played(Begin(programs), maxSize, ts))
  {
    hide View, Stuck, Good, Blocked, Boot, Begin, Inv, Settled, Quiet;
    var es, s := PlayIsRun(programs, initialSize, maxSize, ts);
    ReachableGood(programs, initialSize, maxSize, es);
    GoodMeans(s, initialSize, maxSize, Puts(programs), Gets(programs));
    var more, rest := SettleAll(Boot(programs, initialSize, maxSize), es, s, |s.threads|, maxSize);
    SettledIsStuck(rest);
  }

  /**
   For all programs, mixed or not: the states in which the monitor can come to rest, with everything
   answered, served and left over, are those in which the simple machine can.
   */
  lemma SameRests(programs: seq<seq<Op>>, initialSize: u64, maxSize: u64, a: Atomic)
    requires Fitting(programs, initialSize, maxSize)
    ensures MonitorRests(programs, initialSize, maxSize, a) <==> AtomicRests(programs, maxSize, a)
  {
    hide View, Stuck, Blocked, Boot, Begin;
    if MonitorRests(programs, initialSize, maxSize, a) {
      var es :| ValidRun(Boot(programs, initialSize, maxSize), es)
                && Stuck(After(Boot(programs, initialSize, maxSize), es))
                && View(After(Boot(programs, initialSize, maxSize), es)) == a;
      RestOfMonitor(programs, initialSize, maxSize, es);
    }
    if AtomicRests(programs, maxSize, a) {
      var ts :| Playable(Begin(programs), maxSize, ts) && Played(Begin(programs), maxSize, ts) == a;
      RestOfAtomic(programs, initialSize, maxSize, ts);
    }
  }

  /** Some run of the monitor goes as far as it can and leaves a program unfinished. */
  ghost predicate CanDeadlock(programs: seq<seq<Op>>, initialSize: u64, maxSize: u64) {
    exists es :: ValidRun(Boot(programs, initialSize, maxSize), es)
              && Stuck(After(Boot(programs, initialSize, maxSize), es))
              && !Finished(After(Boot(programs, initialSize, maxSize), es))
  }

  /** The monitor adds no deadlock and removes none, whatever the programs. */
  lemma DeadlockIsTheProgramsOwn(programs: seq<seq<Op>>, initialSize: u64, maxSize: u64)
    requires Fitting(programs, initialSize, maxSize)
    ensures CanDeadlock(programs, initialSize, maxSize)
            <==> exists a :: AtomicRests(programs, maxSize, a) && !AllDone(a)
  {
    hide View, Stuck, Blocked, Boot, Begin, Finished, AllDone, AtomicRests;
    if CanDeadlock(programs, initialSize, maxSize) {
      var es :| ValidRun(Boot(programs, initialSize, maxSize), es)
                && Stuck(After(Boot(programs, initialSize, maxSize), es))
                && !Finished(After(Boot(programs, initialSize, maxSize), es));
      RestOfMonitor(programs, initialSize, maxSize, es);
    }
    if a :| AtomicRests(programs, maxSize, a) && !AllDone(a) {
      SameRests(programs, initialSize, maxSize, a);
      var es :| ValidRun(Boot(programs, initialSize, maxSize), es)
                && Stuck(After(Boot(programs, initialSize, maxSize), es))
                && View(After(Boot(programs, initialSize, maxSize), es)) == a;
      RestOfMonitor(programs, initialSize, maxSize, es);
    }
  }
}
