/** What holds after every run of every set of programs, however the scheduler interleaves them. */
module MonitorRuns {
  import opened Machine
  import opened QueueModel
  import opened QueueLedger
  import opened Doubling
  import opened Seqs
  import opened Threads
  import opened Monitor
  import opened MonitorSafety

  function Puts(programs: seq<seq<Op>>): nat {
    if programs == [] then 0 else PutsIn(programs[0]) + Puts(programs[1..])
  }

  function Gets(programs: seq<seq<Op>>): nat {
    if programs == [] then 0 else GetsIn(programs[0]) + Gets(programs[1..])
  }

  /** Doubling never overflows: guaranteed by the maximum size, or else by the number of items there are. */
  predicate Fitting(programs: seq<seq<Op>>, initialSize: u64, maxSize: u64) {
    Fits(initialSize, Cap(maxSize, Puts(programs)))
  }

  lemma FittingIs(programs: seq<seq<Op>>, initialSize: u64, maxSize: u64)
    ensures Fitting(programs, initialSize, maxSize) <==>
            && initialSize < 0x1000_0000_0000_0000
            && (if maxSize > 0 then maxSize else Puts(programs)) + 98 < 0x800_0000_0000_0000
  {
    FitsIs(initialSize, Cap(maxSize, Puts(programs)));
    hide Fits;
  }

  lemma {:induction false} BootCounts(programs: seq<seq<Op>>, initialSize: u64, maxSize: u64)
    ensures Sum(Boot(programs, initialSize, maxSize).threads, PutsLeft) == Puts(programs)
    ensures Sum(Boot(programs, initialSize, maxSize).threads, GetsLeft) == Gets(programs)
  {
    if programs != [] {
      BootCounts(programs[1..], initialSize, maxSize);
      var rest := Boot(programs[1..], initialSize, maxSize).threads;
      assert Boot(programs, initialSize, maxSize).threads[1..] == rest;
    }
  }

  lemma BootGood(programs: seq<seq<Op>>, initialSize: u64, maxSize: u64)
    requires Fitting(programs, initialSize, maxSize)
    ensures Good(Boot(programs, initialSize, maxSize), initialSize, maxSize, Puts(programs), Gets(programs))
  {
    var s := Boot(programs, initialSize, maxSize);
    BootCounts(programs, initialSize, maxSize);
    StartSound(initialSize, maxSize, Cap(maxSize, Puts(programs)));
    SumZero(s.threads, SleepsOnEmpty);
    SumZero(s.threads, SleepsOnFull);
  }

  lemma {:induction false} ReachableGood(programs: seq<seq<Op>>, initialSize: u64, maxSize: u64, es: seq<Event>)
    requires Fitting(programs, initialSize, maxSize)
    requires ValidRun(Boot(programs, initialSize, maxSize), es)
    ensures Good(After(Boot(programs, initialSize, maxSize), es), initialSize, maxSize, Puts(programs), Gets(programs))
    decreases |es|
  {
    var boot := Boot(programs, initialSize, maxSize);
    if es == [] {
      BootGood(programs, initialSize, maxSize);
    } else {
      var before := es[..|es| - 1];
      ReachableGood(programs, initialSize, maxSize, before);
      StepGood(After(boot, before), es[|es| - 1], initialSize, maxSize, Puts(programs), Gets(programs));
    }
  }

  // ---------- Safety ----------

  lemma GoodIsSound(s: System, initialSize: u64, maxSize: u64, puts: nat, gets: nat)
    requires Good(s, initialSize, maxSize, puts, gets)
    ensures Sound(s.ledger, initialSize, maxSize, Cap(maxSize, puts))
  {
    hide Sound;
  }

  lemma SoundMeans(l: Ledger, initialSize: u64, maxSize: u64, cap: nat)
    requires Sound(l, initialSize, maxSize, cap)
    ensures l.accepted == l.served + l.q.items && SizeOf(l.q) == |l.q.items|
    ensures maxSize > 0 ==> |l.q.items| <= maxSize
    ensures l.q.front + |l.q.items| <= l.q.allocSize <= Max(StartSize(initialSize), 2 * (l.peak + 98))
    ensures maxSize > 0 ==> l.q.allocSize <= Max(StartSize(initialSize), 2 * (maxSize + 98))
  {
    SizeIsLength(l.q);
    hide Grown, Doubled, MoveBound;
  }

  /** First in, first out over all interleavings, within the maximum size and the memory bound. */
  lemma FifoOverAllInterleavings(programs: seq<seq<Op>>, initialSize: u64, maxSize: u64, es: seq<Event>)
    requires Fitting(programs, initialSize, maxSize)
    requires ValidRun(Boot(programs, initialSize, maxSize), es)
    ensures var l := After(Boot(programs, initialSize, maxSize), es).ledger;
            && l.accepted == l.served + l.q.items
            && SizeOf(l.q) == |l.q.items|
            && (maxSize > 0 ==> |l.q.items| <= maxSize)
            && l.q.front + |l.q.items| <= l.q.allocSize <= Max(StartSize(initialSize), 2 * (l.peak + 98))
            && (maxSize > 0 ==> l.q.allocSize <= Max(StartSize(initialSize), 2 * (maxSize + 98)))
  {
    hide After, ValidRun, Sound, Good, Boot, SizeOf, Fitting, StartSize;
    ReachableGood(programs, initialSize, maxSize, es);
    var s := After(Boot(programs, initialSize, maxSize), es);
    GoodIsSound(s, initialSize, maxSize, Puts(programs), Gets(programs));
    SoundMeans(s.ledger, initialSize, maxSize, Cap(maxSize, Puts(programs)));
  }

  /** At most one thread is inside, and an operation past its wait loop finds room, or an item. */
  lemma MutualExclusion(programs: seq<seq<Op>>, initialSize: u64, maxSize: u64, es: seq<Event>, i: nat, j: nat)
    requires Fitting(programs, initialSize, maxSize)
    requires ValidRun(Boot(programs, initialSize, maxSize), es)
    requires i < |programs| && j < |programs|
    ensures var s := After(Boot(programs, initialSize, maxSize), es);
            && |s.threads| == |programs|
            && (InCriticalSection(s.threads[i]) && InCriticalSection(s.threads[j]) ==> i == j)
            && (s.threads[i].pc == Act ==>
                  && s.threads[i].todo != []
                  && (s.threads[i].todo[0].Get? ==> s.ledger.q.items != [])
                  && (s.threads[i].todo[0].Put? && maxSize > 0 ==> |s.ledger.q.items| < maxSize))
  {
    ReachableGood(programs, initialSize, maxSize, es);
    SameThreads(Boot(programs, initialSize, maxSize), es);
    SizeIsLength(After(Boot(programs, initialSize, maxSize), es).ledger.q);
  }

  lemma {:induction false} SameThreads(s: System, es: seq<Event>)
    requires ValidRun(s, es)
    ensures |After(s, es).threads| == |s.threads|
    decreases |es|
  {
    if es != [] {
      SameThreads(s, es[..|es| - 1]);
    }
  }

  /** While a consumer sleeps unsignalled, every item held already has a thread on its way to it. */
  lemma NoLostWakeupOnEmpty(programs: seq<seq<Op>>, initialSize: u64, maxSize: u64, es: seq<Event>, i: nat)
    requires Fitting(programs, initialSize, maxSize)
    requires ValidRun(Boot(programs, initialSize, maxSize), es)
    requires var s := After(Boot(programs, initialSize, maxSize), es);
             i < |s.threads| && s.threads[i].pc == AsleepEmpty
    ensures var s := After(Boot(programs, initialSize, maxSize), es);
            |s.ledger.q.items| <= Sum(s.threads, ServesEmpty)
  {
    ReachableGood(programs, initialSize, maxSize, es);
    SumAtLeast(After(Boot(programs, initialSize, maxSize), es).threads, SleepsOnEmpty, i);
  }

  /** While a producer sleeps unsignalled, every free place already has a thread on its way to it. */
  lemma NoLostWakeupOnFull(programs: seq<seq<Op>>, initialSize: u64, maxSize: u64, es: seq<Event>, i: nat)
    requires Fitting(programs, initialSize, maxSize)
    requires ValidRun(Boot(programs, initialSize, maxSize), es)
    requires var s := After(Boot(programs, initialSize, maxSize), es);
             i < |s.threads| && s.threads[i].pc == AsleepFull
    ensures var s := After(Boot(programs, initialSize, maxSize), es);
            maxSize > 0 && maxSize - |s.ledger.q.items| <= Sum(s.threads, ServesFull)
  {
    ReachableGood(programs, initialSize, maxSize, es);
    SumAtLeast(After(Boot(programs, initialSize, maxSize), es).threads, SleepsOnFull, i);
  }

  predicate Awake(t: Thread) {
    t.pc in {WokenFull, WokenEmpty} || InCriticalSection(t)
  }

  /** A producer and a consumer are never both left asleep with nobody on the way to wake them. */
  lemma NoMutualSleep(programs: seq<seq<Op>>, initialSize: u64, maxSize: u64, es: seq<Event>, i: nat, j: nat)
    requires Fitting(programs, initialSize, maxSize)
    requires ValidRun(Boot(programs, initialSize, maxSize), es)
    requires var s := After(Boot(programs, initialSize, maxSize), es);
             && i < |s.threads| && s.threads[i].pc == AsleepFull
             && j < |s.threads| && s.threads[j].pc == AsleepEmpty
    ensures var s := After(Boot(programs, initialSize, maxSize), es);
            && Sum(s.threads, ServesEmpty) + Sum(s.threads, ServesFull) >= maxSize > 0
            && exists k :: 0 <= k < |s.threads| && Awake(s.threads[k])
  {
    var s := After(Boot(programs, initialSize, maxSize), es);
    NoLostWakeupOnEmpty(programs, initialSize, maxSize, es, j);
    NoLostWakeupOnFull(programs, initialSize, maxSize, es, i);
    if Sum(s.threads, ServesEmpty) > 0 {
      var k := SumWitness(s.threads, ServesEmpty);
      assert Awake(s.threads[k]);
    } else {
      var k := SumWitness(s.threads, ServesFull);
      assert Awake(s.threads[k]);
    }
  }

  // ---------- Whose items are whose ----------

  function PutItems(ops: seq<Op>): seq<Pointer> {
    if ops == [] then []
    else if ops[0].Put? then [ops[0].item] + PutItems(ops[1..])
    else PutItems(ops[1..])
  }

  /** The share of thread `i` in `items`, of which the k-th belongs to thread `who[k]`. */
  function Select<A>(items: seq<A>, who: seq<nat>, i: nat): seq<A>
    requires |items| == |who|
  {
    if items == [] then [] else
    var n := |items| - 1;
    Select(items[..n], who[..n], i) + if who[n] == i then [items[n]] else []
  }

  predicate Traced(s: System, programs: seq<seq<Op>>) {
    && |s.threads| == |programs|
    && |s.putters| == |s.ledger.accepted|
    && forall i :: 0 <= i < |programs| ==>
         Select(s.ledger.accepted, s.putters, i) + PutItems(s.threads[i].todo) == PutItems(programs[i])
  }

  /** What thread `i` has been given is its share of what was served, one item for each of its gets done. */
  predicate Shared(s: System, programs: seq<seq<Op>>) {
    && |s.threads| == |programs|
    && |s.takers| == |s.ledger.served|
    && (forall i :: 0 <= i < |programs| ==>
          && s.threads[i].got == Select(s.ledger.served, s.takers, i)
          && |s.threads[i].got| + GetsIn(s.threads[i].todo) == GetsIn(programs[i]))
  }

  lemma SelectLast<A>(items: seq<A>, who: seq<nat>, i: nat, x: A, w: nat)
    requires |items| == |who|
    ensures Select(items + [x], who + [w], i) == Select(items, who, i) + if w == i then [x] else []
  {
    assert (items + [x])[..|items|] == items;
    assert (who + [w])[..|who|] == who;
  }

  /** An item moves from the head of its thread's program to the end of its thread's share. */
  lemma ItemMoves(items: seq<Pointer>, who: seq<nat>, i: nat, todo: seq<Op>)
    requires |items| == |who| && todo != [] && todo[0].Put?
    ensures Select(items + [todo[0].item], who + [i], i) + PutItems(todo[1..]) ==
            Select(items, who, i) + PutItems(todo)
  {
    var share, x := Select(items, who, i), todo[0].item;
    SelectLast(items, who, i, x, i);
    Associative(share, [x], PutItems(todo[1..]));
    hide Select;
  }

  lemma PutTraced(s: System, t: nat, programs: seq<seq<Op>>)
    requires Enabled(s, Change(t)) && s.threads[t].todo[0].Put? && Traced(s, programs)
    ensures Traced(Next(s, Change(t)), programs)
  {
    hide Select, PutItems, Push, SizeOf;
    var n, x := Next(s, Change(t)), s.threads[t].todo[0].item;
    forall i | 0 <= i < |programs|
      ensures Select(n.ledger.accepted, n.putters, i) + PutItems(n.threads[i].todo) == PutItems(programs[i])
    {
      if i == t {
        ItemMoves(s.ledger.accepted, s.putters, i, s.threads[t].todo);
      } else {
        SelectLast(s.ledger.accepted, s.putters, i, x, t);
      }
    }
  }

  lemma OthersTraced(s: System, e: Event, programs: seq<seq<Op>>)
    requires Enabled(s, e) && Traced(s, programs)
    requires e.Change? ==> s.threads[e.t].todo[0].Get?
    ensures Traced(Next(s, e), programs)
  {
    hide Select, Pop;
  }

  lemma StepTraced(s: System, e: Event, programs: seq<seq<Op>>)
    requires Enabled(s, e) && Traced(s, programs)
    ensures Traced(Next(s, e), programs)
  {
    hide Traced, Next;
    if e.Change? && s.threads[e.t].todo[0].Put? {
      PutTraced(s, e.t, programs);
    } else {
      OthersTraced(s, e, programs);
    }
  }

  /** Each thread's items enter the queue in program order, none lost, none twice. */
  lemma {:induction false} ProgramOrderIsKept(programs: seq<seq<Op>>, initialSize: u64, maxSize: u64, es: seq<Event>)
    requires ValidRun(Boot(programs, initialSize, maxSize), es)
    ensures Traced(After(Boot(programs, initialSize, maxSize), es), programs)
    decreases |es|
  {
    if es != [] {
      var before := es[..|es| - 1];
      ProgramOrderIsKept(programs, initialSize, maxSize, before);
      StepTraced(After(Boot(programs, initialSize, maxSize), before), es[|es| - 1], programs);
    }
  }

  lemma StepShared(s: System, e: Event, programs: seq<seq<Op>>)
    requires Enabled(s, e) && Shared(s, programs)
    ensures Shared(Next(s, e), programs)
  {
    hide Select;
    if e.Change? && s.threads[e.t].todo[0].Get? {
      var x := Oldest(s.ledger.q.items);
      var n := Next(s, e);
      forall i | 0 <= i < |programs|
        ensures n.threads[i].got == Select(n.ledger.served, n.takers, i)
      {
        SelectLast(s.ledger.served, s.takers, i, x, e.t);
      }
    }
  }

  /** Each consumer's items are its share of what was served, in order, one for each of its gets done. */
  lemma {:induction false} SharesAreKept(programs: seq<seq<Op>>, initialSize: u64, maxSize: u64, es: seq<Event>)
    requires ValidRun(Boot(programs, initialSize, maxSize), es)
    ensures Shared(After(Boot(programs, initialSize, maxSize), es), programs)
    decreases |es|
  {
    if es != [] {
      var before := es[..|es| - 1];
      SharesAreKept(programs, initialSize, maxSize, before);
      StepShared(After(Boot(programs, initialSize, maxSize), before), es[|es| - 1], programs);
    }
  }

  /** Lengths that enqueues may have answered by the time `accepted` items have gone in. */
  predicate LengthsOk(sizes: seq<u64>, accepted: nat, maxSize: u64) {
    forall k :: 0 <= k < |sizes| ==> 1 <= sizes[k] <= accepted && (maxSize > 0 ==> sizes[k] <= maxSize)
  }

  /** One answer for each put done, never 0 and never above the maximum. */
  predicate SizesOk(s: System, programs: seq<seq<Op>>, maxSize: u64) {
    && |s.threads| == |programs|
    && (forall i :: 0 <= i < |programs| ==>
          && |s.threads[i].sizes| + PutsIn(s.threads[i].todo) == PutsIn(programs[i])
          && LengthsOk(s.threads[i].sizes, |s.ledger.accepted|, maxSize))
  }

  lemma LengthAnswered(l: Ledger, x: Pointer, initialSize: u64, maxSize: u64, cap: nat)
    requires Fits(initialSize, cap) && Sound(l, initialSize, maxSize, cap) && !Full(l.q) && |l.q.items| < cap
    ensures LengthsOk([SizeOf(Push(l.q, x))], |l.accepted| + 1, maxSize)
  {
    PushSound(l, x, initialSize, maxSize, cap);
    PushInv(l.q, x);
  }

  lemma LengthsStayOk(sizes: seq<u64>, more: seq<u64>, accepted: nat, maxSize: u64)
    requires LengthsOk(sizes, accepted, maxSize) && LengthsOk(more, accepted + 1, maxSize)
    ensures LengthsOk(sizes, accepted + 1, maxSize) && LengthsOk(sizes + more, accepted + 1, maxSize)
  {
  }

  lemma PutKeepsSizes(s: System, t: nat, programs: seq<seq<Op>>, maxSize: u64)
    requires Enabled(s, Change(t)) && s.threads[t].todo[0].Put? && SizesOk(s, programs, maxSize)
    requires LengthsOk([SizeOf(Push(s.ledger.q, s.threads[t].todo[0].item))], |s.ledger.accepted| + 1, maxSize)
    ensures SizesOk(Next(s, Change(t)), programs, maxSize)
  {
    hide LengthsOk, Push, SizeOf;
    forall i | 0 <= i < |programs|
      ensures LengthsOk(Next(s, Change(t)).threads[i].sizes, |s.ledger.accepted| + 1, maxSize)
    {
      LengthsStayOk(s.threads[i].sizes, [SizeOf(Push(s.ledger.q, s.threads[t].todo[0].item))],
                    |s.ledger.accepted|, maxSize);
    }
  }

  lemma StepSizes(s: System, e: Event, programs: seq<seq<Op>>, initialSize: u64, maxSize: u64, puts: nat, gets: nat)
    requires Fits(initialSize, Cap(maxSize, puts)) && Enabled(s, e)
    requires Good(s, initialSize, maxSize, puts, gets) && SizesOk(s, programs, maxSize)
    ensures SizesOk(Next(s, e), programs, maxSize)
  {
    if e.Change? && s.threads[e.t].todo[0].Put? {
      SumAtLeast(s.threads, PutsLeft, e.t);
      LengthAnswered(s.ledger, s.threads[e.t].todo[0].item, initialSize, maxSize, Cap(maxSize, puts));
      PutKeepsSizes(s, e.t, programs, maxSize);
      hide SizesOk, Next;
    } else {
      OthersKeepSizes(s, e, programs, maxSize);
      hide SizesOk, Next;
    }
  }

  lemma OthersKeepSizes(s: System, e: Event, programs: seq<seq<Op>>, maxSize: u64)
    requires Enabled(s, e) && SizesOk(s, programs, maxSize)
    requires e.Change? ==> s.threads[e.t].todo[0].Get?
    ensures SizesOk(Next(s, e), programs, maxSize)
  {
    hide LengthsOk, Pop;
  }

  lemma {:induction false} SizesStayOk(programs: seq<seq<Op>>, initialSize: u64, maxSize: u64, es: seq<Event>)
    requires Fitting(programs, initialSize, maxSize)
    requires ValidRun(Boot(programs, initialSize, maxSize), es)
    ensures SizesOk(After(Boot(programs, initialSize, maxSize), es), programs, maxSize)
    decreases |es|
  {
    if es != [] {
      var before := es[..|es| - 1];
      SizesStayOk(programs, initialSize, maxSize, before);
      ReachableGood(programs, initialSize, maxSize, before);
      StepSizes(After(Boot(programs, initialSize, maxSize), before), es[|es| - 1], programs,
                initialSize, maxSize, Puts(programs), Gets(programs));
    }
  }

  predicate PutsItem(s: System, e: Event)
    requires Enabled(s, e)
  {
    e.Change? && s.threads[e.t].todo[0].Put?
  }

  /** The length of the queue just after each item accepted in the run. */
  function Lengths(s: System, es: seq<Event>): seq<int>
    requires ValidRun(s, es)
  {
    if es == [] then [] else
    var before := es[..|es| - 1];
    if PutsItem(After(s, before), es[|es| - 1]) then Lengths(s, before) + [|After(s, es).ledger.q.items|]
    else Lengths(s, before)
  }

  /** What each thread's enqueues have answered is its share of `lengths`. */
  predicate Answered(s: System, lengths: seq<int>) {
    && |lengths| == |s.putters| == |s.ledger.accepted|
    && forall i :: 0 <= i < |s.threads| ==> s.threads[i].sizes == Select(lengths, s.putters, i)
  }

  lemma PutAnswers(s: System, e: Event, lengths: seq<int>)
    requires Enabled(s, e) && PutsItem(s, e) && Answered(s, lengths) && Exclusive(s)
    requires Inv(s.ledger.q) && 16 * s.ledger.q.allocSize < TWO_64
    ensures var n := Next(s, e); Answered(n, lengths + [|n.ledger.q.items|])
  {
    var x, length := s.threads[e.t].todo[0].item, |s.ledger.q.items| + 1;
    PushInv(s.ledger.q, x);
    StoredLength(s.ledger.q, x);
    hide Select, Inv, Push, SizeOf, Full;
    forall i | 0 <= i < |s.threads|
      ensures Next(s, e).threads[i].sizes == Select(lengths + [length], s.putters + [e.t], i)
    {
      SelectLast(lengths, s.putters, i, length, e.t);
    }
  }

  lemma OthersAnswerNothing(s: System, e: Event, lengths: seq<int>)
    requires Enabled(s, e) && !PutsItem(s, e) && Answered(s, lengths)
    ensures Answered(Next(s, e), lengths)
  {
    hide Select, Pop;
  }

  lemma StepAnswered(s: System, e: Event, lengths: seq<int>,
                     initialSize: u64, maxSize: u64, puts: nat, gets: nat)
    requires Fits(initialSize, Cap(maxSize, puts)) && Enabled(s, e)
    requires Good(s, initialSize, maxSize, puts, gets) && Answered(s, lengths)
    ensures var n := Next(s, e);
            Answered(n, if PutsItem(s, e) then lengths + [|n.ledger.q.items|] else lengths)
  {
    hide Answered, PutsItem, Next, Enabled, NoLostWakeup, Counted, Exclusive;
    AllocFits(initialSize, s.ledger.peak, Cap(maxSize, puts));
    if PutsItem(s, e) {
      PutAnswers(s, e, lengths);
    } else {
      OthersAnswerNothing(s, e, lengths);
    }
  }

  lemma {:induction false} SizesAreLengths(programs: seq<seq<Op>>, initialSize: u64, maxSize: u64, es: seq<Event>)
    requires Fitting(programs, initialSize, maxSize)
    requires ValidRun(Boot(programs, initialSize, maxSize), es)
    ensures Answered(After(Boot(programs, initialSize, maxSize), es), Lengths(Boot(programs, initialSize, maxSize), es))
    decreases |es|
  {
    hide Answered, PutsItem, Next, Enabled, Good;
    var boot := Boot(programs, initialSize, maxSize);
    if es == [] {
      NothingAnswered(programs, initialSize, maxSize);
    } else {
      var before := es[..|es| - 1];
      SizesAreLengths(programs, initialSize, maxSize, before);
      ReachableGood(programs, initialSize, maxSize, before);
      StepAnswered(After(boot, before), es[|es| - 1], Lengths(boot, before),
                   initialSize, maxSize, Puts(programs), Gets(programs));
    }
  }

  lemma NothingAnswered(programs: seq<seq<Op>>, initialSize: u64, maxSize: u64)
    ensures Answered(Boot(programs, initialSize, maxSize), [])
  {
  }

  /**
   Every enqueue answers the length of the queue just after its item went in, which is from 1 to the
   maximum size, and there is one answer for each put done.
   */
  lemma SizesAreAnswered(programs: seq<seq<Op>>, initialSize: u64, maxSize: u64, es: seq<Event>)
    requires Fitting(programs, initialSize, maxSize)
    requires ValidRun(Boot(programs, initialSize, maxSize), es)
    ensures var boot := Boot(programs, initialSize, maxSize);
            Answered(After(boot, es), Lengths(boot, es)) && SizesOk(After(boot, es), programs, maxSize)
  {
    SizesAreLengths(programs, initialSize, maxSize, es);
    SizesStayOk(programs, initialSize, maxSize, es);
  }

  lemma {:induction false} SelectNone<A>(items: seq<A>, who: seq<nat>, i: nat, k: nat)
    requires |items| == |who| && k < |who| && who[k] == i
    ensures Select(items, who, i) != []
  {
    var n := |items| - 1;
    if k < n {
      SelectNone(items[..n], who[..n], i, k);
    }
  }

  lemma {:induction false} SelectAll<A>(items: seq<A>, who: seq<nat>, i: nat)
    requires |items| == |who| && forall k :: 0 <= k < |who| ==> who[k] == i
    ensures Select(items, who, i) == items
  {
    if items != [] {
      var n := |items| - 1;
      SelectAll(items[..n], who[..n], i);
      assert items[..n] + [items[n]] == items;
    }
  }

  lemma StepPutters(s: System, e: Event)
    requires Enabled(s, e) && forall k :: 0 <= k < |s.putters| ==> s.putters[k] < |s.threads|
    ensures forall k :: 0 <= k < |Next(s, e).putters| ==> Next(s, e).putters[k] < |s.threads|
  {
    hide Push, Pop, SizeOf, MayPass;
  }

  /** Puts come only from threads of the system, so every accepted item has a known author. */
  lemma {:induction false} PuttersAreThreads(s: System, es: seq<Event>)
    requires ValidRun(s, es) && s.putters == []
    ensures forall k :: 0 <= k < |After(s, es).putters| ==> After(s, es).putters[k] < |s.threads|
    decreases |es|
  {
    if es != [] {
      PuttersAreThreads(s, es[..|es| - 1]);
      SameThreads(s, es[..|es| - 1]);
      StepPutters(After(s, es[..|es| - 1]), es[|es| - 1]);
    }
    hide Next, Enabled;
  }

  lemma OneAuthor(s: System, programs: seq<seq<Op>>, p: nat)
    requires Traced(s, programs) && p < |programs|
    requires forall k :: 0 <= k < |s.putters| ==> s.putters[k] < |programs|
    requires forall i :: 0 <= i < |programs| && i != p ==> PutItems(programs[i]) == []
    ensures s.ledger.accepted + PutItems(s.threads[p].todo) == PutItems(programs[p])
  {
    forall k | 0 <= k < |s.putters|
      ensures s.putters[k] == p
    {
      SelectNone(s.ledger.accepted, s.putters, s.putters[k], k);
    }
    SelectAll(s.ledger.accepted, s.putters, p);
  }

  /** With one producer, whatever has come out so far is a prefix of what that producer sends. */
  lemma SingleProducerInOrder(programs: seq<seq<Op>>, initialSize: u64, maxSize: u64, es: seq<Event>, p: nat)
    requires Fitting(programs, initialSize, maxSize)
    requires ValidRun(Boot(programs, initialSize, maxSize), es)
    requires p < |programs| && forall i :: 0 <= i < |programs| && i != p ==> PutItems(programs[i]) == []
    ensures After(Boot(programs, initialSize, maxSize), es).ledger.served <= PutItems(programs[p])
  {
    var s := After(Boot(programs, initialSize, maxSize), es);
    FifoOverAllInterleavings(programs, initialSize, maxSize, es);
    ProgramOrderIsKept(programs, initialSize, maxSize, es);
    PuttersAreThreads(Boot(programs, initialSize, maxSize), es);
    OneAuthor(s, programs, p);
    var l := s.ledger;
    assert l.served <= l.accepted <= l.accepted + PutItems(s.threads[p].todo);
  }
}
