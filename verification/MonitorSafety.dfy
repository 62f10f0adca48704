/** Safety of the monitor: every step of every thread keeps the invariant, spurious wakeups included. */
module MonitorSafety {
  import opened Machine
  import opened QueueModel
  import opened QueueLedger
  import opened Threads
  import opened Monitor

  /** What moving one thread does to every sum at once. */
  lemma SumsUpdate(ts: seq<Thread>, i: nat, t: Thread)
    requires i < |ts|
    ensures Sum(ts[i := t], SleepsOnEmpty) + SleepsOnEmpty(ts[i]) == Sum(ts, SleepsOnEmpty) + SleepsOnEmpty(t)
    ensures Sum(ts[i := t], SleepsOnFull) + SleepsOnFull(ts[i]) == Sum(ts, SleepsOnFull) + SleepsOnFull(t)
    ensures Sum(ts[i := t], ServesEmpty) + ServesEmpty(ts[i]) == Sum(ts, ServesEmpty) + ServesEmpty(t)
    ensures Sum(ts[i := t], ServesFull) + ServesFull(ts[i]) == Sum(ts, ServesFull) + ServesFull(t)
    ensures Sum(ts[i := t], PutsLeft) + PutsLeft(ts[i]) == Sum(ts, PutsLeft) + PutsLeft(t)
    ensures Sum(ts[i := t], GetsLeft) + GetsLeft(ts[i]) == Sum(ts, GetsLeft) + GetsLeft(t)
  {
    hide Sum;
    SumUpdate(ts, SleepsOnEmpty, i, t);
    SumUpdate(ts, SleepsOnFull, i, t);
    SumUpdate(ts, ServesEmpty, i, t);
    SumUpdate(ts, ServesFull, i, t);
    SumUpdate(ts, PutsLeft, i, t);
    SumUpdate(ts, GetsLeft, i, t);
  }

  lemma StepThreads(s: System, e: Event, maxSize: u64)
    requires Enabled(s, e) && s.ledger.q.maxSize == maxSize
    requires forall i :: 0 <= i < |s.threads| ==> ThreadOk(s.threads[i], maxSize)
    ensures |Next(s, e).threads| == |s.threads|
    ensures forall i :: 0 <= i < |s.threads| ==> ThreadOk(Next(s, e).threads[i], maxSize)
  {
  }

  lemma StepExclusive(s: System, e: Event)
    requires Enabled(s, e) && Exclusive(s)
    ensures Exclusive(Next(s, e))
  {
    hide MayPass, AfterPush, AfterPop;
  }

  lemma StepCounted(s: System, e: Event, puts: nat, gets: nat)
    requires Enabled(s, e) && Counted(s, puts, gets)
    ensures Counted(Next(s, e), puts, gets)
  {
    hide Sum;
    var n := Next(s, e);
    SumsUpdate(s.threads, e.t, n.threads[e.t]);
    if e.Signal? && e.wakes.Some? {
      var left := At(s, e.t, Leave);
      SumsUpdate(left.threads, e.wakes.value, n.threads[e.wakes.value]);
    }
  }

  lemma StepLedger(s: System, e: Event, initialSize: u64, maxSize: u64, puts: nat, gets: nat)
    requires Fits(initialSize, Cap(maxSize, puts)) && Enabled(s, e)
    requires Sound(s.ledger, initialSize, maxSize, Cap(maxSize, puts)) && Exclusive(s) && Counted(s, puts, gets)
    ensures Sound(Next(s, e).ledger, initialSize, maxSize, Cap(maxSize, puts))
  {
    hide Sum;
    if e.Change? {
      var th := s.threads[e.t];
      match th.todo[0]
      case Put(x) =>
        SumAtLeast(s.threads, PutsLeft, e.t);
        PushSound(s.ledger, x, initialSize, maxSize, Cap(maxSize, puts));
      case Get =>
        PopSound(s.ledger, initialSize, maxSize, Cap(maxSize, puts));
    }
  }

  lemma StepNoLostWakeup(s: System, e: Event, maxSize: u64)
    requires Enabled(s, e) && Exclusive(s) && NoLostWakeup(s)
    requires Inv(s.ledger.q) && s.ledger.q.maxSize == maxSize
    requires forall i :: 0 <= i < |s.threads| ==> ThreadOk(s.threads[i], maxSize)
    ensures NoLostWakeup(Next(s, e))
  {
    hide Sum;
    match e
    case Signal(t, w) => SignalKeepsWakeups(s, t, w);
    case Change(t) => ChangeKeepsWakeups(s, t);
    case Test(t) => TestKeepsWakeups(s, t);
    case _ => SumsUpdate(s.threads, e.t, Next(s, e).threads[e.t]);
  }

  lemma TestKeepsWakeups(s: System, t: nat)
    requires Enabled(s, Test(t)) && NoLostWakeup(s) && Inv(s.ledger.q)
    ensures NoLostWakeup(Next(s, Test(t)))
  {
    hide Sum;
    SumsUpdate(s.threads, t, Next(s, Test(t)).threads[t]);
    SizeIsLength(s.ledger.q);
  }

  lemma ChangeKeepsWakeups(s: System, t: nat)
    requires Enabled(s, Change(t)) && NoLostWakeup(s) && Exclusive(s) && Inv(s.ledger.q)
    ensures NoLostWakeup(Next(s, Change(t)))
  {
    hide Sum;
    SumsUpdate(s.threads, t, Next(s, Change(t)).threads[t]);
    SizeIsLength(s.ledger.q);
    assert |Pop(s.ledger.q).items| == |WithoutOldest(s.ledger.q.items)|;
  }

  lemma SignalKeepsWakeups(s: System, t: nat, w: Option<nat>)
    requires Enabled(s, Signal(t, w)) && NoLostWakeup(s)
    ensures NoLostWakeup(Next(s, Signal(t, w)))
  {
    hide Sum;
    var n := Next(s, Signal(t, w));
    var left := At(s, t, Leave);
    SumsUpdate(s.threads, t, left.threads[t]);
    match w
    case Some(u) =>
      SumsUpdate(left.threads, u, n.threads[u]);
    case None =>
      if s.threads[t].pc == SignalEmpty {
        SumZero(n.threads, SleepsOnEmpty);
      } else {
        SumZero(n.threads, SleepsOnFull);
      }
  }

  lemma StepGood(s: System, e: Event, initialSize: u64, maxSize: u64, puts: nat, gets: nat)
    requires Fits(initialSize, Cap(maxSize, puts)) && Enabled(s, e)
    requires Good(s, initialSize, maxSize, puts, gets)
    ensures Good(Next(s, e), initialSize, maxSize, puts, gets)
  {
    hide Sum, Next, Enabled, ThreadOk, Exclusive, NoLostWakeup, Counted;
    StepThreads(s, e, maxSize);
    StepExclusive(s, e);
    StepCounted(s, e, puts, gets);
    StepLedger(s, e, initialSize, maxSize, puts, gets);
    StepNoLostWakeup(s, e, maxSize);
  }
}
