/**
 The queue built with threads, as a transition system: any number of threads, one mutex, the
 conditions `full` and `empty`. A signal wakes one sleeping waiter if there is one, whichever the
 scheduler picks; a waiter may also wake without a signal. The queue itself changes only through
 the transitions of QueueLedger.
 */
module Monitor {
  import opened Machine
  import opened QueueModel
  import opened QueueLedger
  import opened Threads

  datatype System = System(
    threads: seq<Thread>,
    owner: Option<nat>,
    ledger: Ledger,
    // Which thread enqueued each accepted item, and which dequeued each served one.
    putters: seq<nat>,
    takers: seq<nat>)

  datatype Event =
    | Lock(t: nat)
    | Test(t: nat)
    | Change(t: nat)
    | Signal(t: nat, wakes: Option<nat>)
    | Unlock(t: nat)
    | Relock(t: nat)
    | Spurious(t: nat)

  function Boot(programs: seq<seq<Op>>, initialSize: u64, maxSize: u64): System {
    System(seq(|programs|, i requires 0 <= i < |programs| => Thread(Idle, programs[i], [], [])),
           None, Start(initialSize, maxSize), [], [])
  }

  /** The wait loop of `op` lets the thread through. */
  predicate MayPass(q: Queue, op: Op) {
    if op.Put? then !Full(q) else !Empty(q)
  }

  predicate NoneAt(ts: seq<Thread>, pc: PC) {
    forall i :: 0 <= i < |ts| ==> ts[i].pc != pc
  }

  /** A signal reaches some sleeper on the condition; only when there is none is it lost. */
  predicate Wakes(ts: seq<Thread>, sleeping: PC, w: Option<nat>) {
    match w
    case Some(u) => u < |ts| && ts[u].pc == sleeping
    case None => NoneAt(ts, sleeping)
  }

  predicate Enabled(s: System, e: Event) {
    && e.t < |s.threads|
    && var th := s.threads[e.t];
       match e
       case Lock(_) => th.pc == Idle && th.todo != [] && s.owner == None
       case Test(_) => th.pc == Check && th.todo != []
       case Change(_) => th.pc == Act && th.todo != []
       case Signal(_, w) =>
         || (th.pc == SignalEmpty && Wakes(s.threads, AsleepEmpty, w))
         || (th.pc == SignalFull && Wakes(s.threads, AsleepFull, w))
       case Unlock(_) => th.pc == Leave
       case Relock(_) => th.pc in {WokenFull, WokenEmpty} && s.owner == None
       case Spurious(_) => th.pc in {AsleepFull, AsleepEmpty}
  }

  function At(s: System, t: nat, pc: PC): System
    requires t < |s.threads|
  {
    s.(threads := s.threads[t := s.threads[t].(pc := pc)])
  }

  function AfterChange(s: System, t: nat): System
    requires t < |s.threads| && s.threads[t].todo != []
  {
    var th := s.threads[t];
    match th.todo[0]
    case Put(x) =>
      s.(ledger := AfterPush(s.ledger, x),
         putters := s.putters + [t],
         threads := s.threads[t := Thread(SignalEmpty, th.todo[1..], th.got,
                                          th.sizes + [SizeOf(Push(s.ledger.q, x))])])
    case Get =>
      s.(ledger := AfterPop(s.ledger),
         takers := s.takers + [t],
         threads := s.threads[t := Thread(SignalFull, th.todo[1..],
                                          th.got + [Oldest(s.ledger.q.items)], th.sizes)])
  }

  function Next(s: System, e: Event): System
    requires Enabled(s, e)
  {
    var th := s.threads[e.t];
    match e
    case Lock(t) => At(s, t, Check).(owner := Some(t))
    case Test(t) =>
      if MayPass(s.ledger.q, th.todo[0]) then At(s, t, Act)
      else At(s, t, if th.todo[0].Put? then AsleepFull else AsleepEmpty).(owner := None)
    case Change(t) => AfterChange(s, t)
    case Signal(t, w) =>
      var left := At(s, t, Leave);
      if w == None then left
      else At(left, w.value, if th.pc == SignalEmpty then WokenEmpty else WokenFull)
    case Unlock(t) => At(s, t, Idle).(owner := None)
    case Relock(t) => At(s, t, Check).(owner := Some(t))
    case Spurious(t) => At(s, t, if th.pc == AsleepFull then WokenFull else WokenEmpty)
  }

  predicate ValidRun(s: System, es: seq<Event>)
    decreases |es|, 0
  {
    es != [] ==> ValidRun(s, es[..|es| - 1]) && Enabled(After(s, es[..|es| - 1]), es[|es| - 1])
  }

  function After(s: System, es: seq<Event>): System
    requires ValidRun(s, es)
    decreases |es|, 1
  {
    if es == [] then s else Next(After(s, es[..|es| - 1]), es[|es| - 1])
  }

  // ---------- Weights summed over the threads ----------

  function SleepsOnEmpty(t: Thread): nat {
    if t.pc == AsleepEmpty then 1 else 0
  }

  function SleepsOnFull(t: Thread): nat {
    if t.pc == AsleepFull then 1 else 0
  }

  /** A consumer awake on its way to an item, or a producer that has stored and not yet signalled. */
  function ServesEmpty(t: Thread): nat {
    if t.pc == WokenEmpty || t.pc == SignalEmpty then 1
    else if t.pc in {Check, Act} && t.todo != [] && t.todo[0].Get? then 1
    else 0
  }

  /** A producer awake on its way to a free place, or a consumer that has taken and not yet signalled. */
  function ServesFull(t: Thread): nat {
    if t.pc == WokenFull || t.pc == SignalFull then 1
    else if t.pc in {Check, Act} && t.todo != [] && t.todo[0].Put? then 1
    else 0
  }

  function PutsIn(ops: seq<Op>): nat {
    if ops == [] then 0 else (if ops[0].Put? then 1 else 0) + PutsIn(ops[1..])
  }

  function GetsIn(ops: seq<Op>): nat {
    if ops == [] then 0 else (if ops[0].Get? then 1 else 0) + GetsIn(ops[1..])
  }

  function PutsLeft(t: Thread): nat {
    PutsIn(t.todo)
  }

  function GetsLeft(t: Thread): nat {
    GetsIn(t.todo)
  }

  // ---------- The invariant ----------

  predicate ThreadOk(t: Thread, maxSize: u64) {
    && (t.pc in {Check, Act, AsleepFull, AsleepEmpty, WokenFull, WokenEmpty} ==> t.todo != [])
    && (t.pc in {AsleepFull, WokenFull} ==> t.todo[0].Put? && maxSize > 0)
    && (t.pc in {AsleepEmpty, WokenEmpty} ==> t.todo[0].Get?)
  }

  /** The mutex is held by exactly the thread inside, and one past the test finds the test still true. */
  predicate Exclusive(s: System) {
    && (s.owner.Some? ==> s.owner.value < |s.threads|)
    && (forall i :: 0 <= i < |s.threads| ==> (InCriticalSection(s.threads[i]) <==> s.owner == Some(i)))
    && (forall i :: 0 <= i < |s.threads| && s.threads[i].pc == Act && s.threads[i].todo != [] ==>
          MayPass(s.ledger.q, s.threads[i].todo[0]))
  }

  /** Sleepers are outnumbered: whatever they wait for is already being attended to. */
  predicate NoLostWakeup(s: System) {
    && (Sum(s.threads, SleepsOnEmpty) > 0 ==> |s.ledger.q.items| <= Sum(s.threads, ServesEmpty))
    && (Sum(s.threads, SleepsOnFull) > 0 ==>
          s.ledger.q.maxSize - |s.ledger.q.items| <= Sum(s.threads, ServesFull))
  }

  /** Every operation of the programs is either done, and then counted in the history, or still to do. */
  predicate Counted(s: System, puts: nat, gets: nat) {
    && |s.ledger.accepted| + Sum(s.threads, PutsLeft) == puts
    && |s.ledger.served| + Sum(s.threads, GetsLeft) == gets
  }

  /** The number of items the queue can come to hold. */
  function Cap(maxSize: u64, puts: nat): nat {
    if maxSize > 0 then maxSize else puts
  }

  predicate Good(s: System, initialSize: u64, maxSize: u64, puts: nat, gets: nat) {
    && Sound(s.ledger, initialSize, maxSize, Cap(maxSize, puts))
    && (forall i :: 0 <= i < |s.threads| ==> ThreadOk(s.threads[i], maxSize))
    && Exclusive(s)
    && NoLostWakeup(s)
    && Counted(s, puts, gets)
  }
}
