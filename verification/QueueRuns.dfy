/**
 Whole runs of the queue built without threads: any sequence of enqueues, dequeues and vacuum calls,
 with the answers the caller sees. The counters are proved invisible: the answers are those of a
 plain sequence. Memory and copying are bounded, and the memory bound is shown to be reached.
 */
module QueueRuns {
  import opened Machine
  import opened QueueModel
  import opened QueueLedger
  import opened Doubling
  import opened Seqs

  datatype Call = Enqueue(item: Pointer) | Dequeue | VacuumNow

  /** One call as the code runs it; every test is on the wrapped size. */
  function Step(l: Ledger, c: Call): Ledger {
    match c
    case Enqueue(x) => if Full(l.q) then l else AfterPush(l, x)
    case Dequeue => if Empty(l.q) then l else AfterPop(l)
    case VacuumNow => AfterVacuum(l)
  }

  /** The value the call returns; a vacuum returns nothing, written here as 0. */
  function Answer(q: Queue, c: Call): u64 {
    match c
    case Enqueue(x) => if Full(q) then Wrap(-1) else SizeOf(Push(q, x))
    case Dequeue => if Empty(q) then NULL else Oldest(q.items)
    case VacuumNow => 0
  }

  function Run(initialSize: u64, maxSize: u64, calls: seq<Call>): Ledger {
    if calls == [] then Start(initialSize, maxSize)
    else Step(Run(initialSize, maxSize, calls[..|calls| - 1]), calls[|calls| - 1])
  }

  function Answers(initialSize: u64, maxSize: u64, calls: seq<Call>): seq<u64> {
    if calls == [] then [] else
    var before := calls[..|calls| - 1];
    Answers(initialSize, maxSize, before) + [Answer(Run(initialSize, maxSize, before).q, calls[|calls| - 1])]
  }

  /** The number of items the queue can come to hold during `calls`. */
  function Cap(maxSize: u64, calls: seq<Call>): nat {
    if maxSize > 0 then maxSize else |calls|
  }

  /** What the run theorems ask for: sizes far below 2^59. */
  lemma RunFits(initialSize: u64, maxSize: u64, calls: seq<Call>)
    ensures Fits(initialSize, Cap(maxSize, calls)) <==>
            && initialSize < 0x1000_0000_0000_0000
            && (if maxSize > 0 then maxSize else |calls|) + 98 < 0x800_0000_0000_0000
  {
    FitsIs(initialSize, Cap(maxSize, calls));
    hide Fits;
  }

  lemma StepSound(l: Ledger, c: Call, initialSize: u64, maxSize: u64, cap: nat)
    requires Fits(initialSize, cap) && Sound(l, initialSize, maxSize, cap)
    requires if maxSize > 0 then cap == maxSize else |l.q.items| < cap
    ensures Sound(Step(l, c), initialSize, maxSize, cap)
    ensures |Step(l, c).q.items| <= |l.q.items| + 1
  {
    match c
    case Enqueue(x) => if !Full(l.q) { PushSound(l, x, initialSize, maxSize, cap); }
    case Dequeue => if !Empty(l.q) { PopSound(l, initialSize, maxSize, cap); }
    case VacuumNow => VacuumSound(l, initialSize, maxSize, cap);
  }

  /** Every run is sound; with a maximum size this needs no limit on the number of calls. */
  lemma {:induction false} RunSound(initialSize: u64, maxSize: u64, calls: seq<Call>, cap: nat)
    requires Fits(initialSize, cap)
    requires if maxSize > 0 then cap == maxSize else |calls| <= cap
    ensures Sound(Run(initialSize, maxSize, calls), initialSize, maxSize, cap)
    ensures |Run(initialSize, maxSize, calls).q.items| <= |calls|
    decreases |calls|
  {
    if calls == [] {
      StartSound(initialSize, maxSize, cap);
    } else {
      var before := calls[..|calls| - 1];
      RunSound(initialSize, maxSize, before, cap);
      StepSound(Run(initialSize, maxSize, before), calls[|calls| - 1], initialSize, maxSize, cap);
    }
  }

  // ---------- The plain sequence the caller believes in ----------

  function PlainStep(items: seq<Pointer>, maxSize: u64, c: Call): seq<Pointer> {
    match c
    case Enqueue(x) => if maxSize > 0 && |items| == maxSize then items else items + [x]
    case Dequeue => if items == [] then [] else items[1..]
    case VacuumNow => items
  }

  function PlainAnswer(items: seq<Pointer>, maxSize: u64, c: Call): int {
    match c
    case Enqueue(x) => if maxSize > 0 && |items| == maxSize then 0xffff_ffff_ffff_ffff else |items| + 1
    case Dequeue => if items == [] then 0 else items[0]
    case VacuumNow => 0
  }

  function PlainRun(maxSize: u64, calls: seq<Call>): seq<Pointer> {
    if calls == [] then [] else
    PlainStep(PlainRun(maxSize, calls[..|calls| - 1]), maxSize, calls[|calls| - 1])
  }

  function PlainAnswers(maxSize: u64, calls: seq<Call>): seq<int> {
    if calls == [] then [] else
    var before := calls[..|calls| - 1];
    PlainAnswers(maxSize, before) + [PlainAnswer(PlainRun(maxSize, before), maxSize, calls[|calls| - 1])]
  }

  /** Wrapping cursors, growth and compaction are invisible: the caller sees a plain sequence. */
  lemma {:induction false} RunRefinesPlainSequence(initialSize: u64, maxSize: u64, calls: seq<Call>, cap: nat)
    requires Fits(initialSize, cap)
    requires if maxSize > 0 then cap == maxSize else |calls| <= cap
    ensures Run(initialSize, maxSize, calls).q.items == PlainRun(maxSize, calls)
    ensures Answers(initialSize, maxSize, calls) == PlainAnswers(maxSize, calls)
    decreases |calls|
  {
    if calls != [] {
      var before := calls[..|calls| - 1];
      RunRefinesPlainSequence(initialSize, maxSize, before, cap);
      RunSound(initialSize, maxSize, before, cap);
      StepRefinesPlainStep(Run(initialSize, maxSize, before), calls[|calls| - 1], initialSize, maxSize, cap);
    }
  }

  lemma StepRefinesPlainStep(l: Ledger, c: Call, initialSize: u64, maxSize: u64, cap: nat)
    requires Fits(initialSize, cap) && Sound(l, initialSize, maxSize, cap)
    requires if maxSize > 0 then cap == maxSize else |l.q.items| < cap
    ensures Step(l, c).q.items == PlainStep(l.q.items, maxSize, c)
    ensures Answer(l.q, c) == PlainAnswer(l.q.items, maxSize, c)
  {
    SizeIsLength(l.q);
    if c.Enqueue? && !Full(l.q) {
      PushSound(l, c.item, initialSize, maxSize, cap);
      PushInv(l.q, c.item);
    }
  }

  // ---------- Memory and work ----------

  function SizeAfter(initialSize: u64, maxSize: u64, calls: seq<Call>): nat {
    |Run(initialSize, maxSize, calls).q.items|
  }

  lemma StepPeak(l: Ledger, c: Call)
    requires |l.q.items| <= l.peak
    ensures Step(l, c).peak == Max(l.peak, |Step(l, c).q.items|)
  {
  }

  lemma {:induction false} PeakIsAtLeast(initialSize: u64, maxSize: u64, calls: seq<Call>, k: nat)
    requires k <= |calls|
    ensures SizeAfter(initialSize, maxSize, calls[..k]) <= Run(initialSize, maxSize, calls).peak
    decreases |calls|
  {
    hide Step;
    assert calls[..|calls|] == calls;
    if calls != [] {
      var before := calls[..|calls| - 1];
      PeakIsAtLeast(initialSize, maxSize, before, |before|);
      assert before[..|before|] == before;
      StepPeak(Run(initialSize, maxSize, before), calls[|calls| - 1]);
      if k < |calls| {
        PeakIsAtLeast(initialSize, maxSize, before, k);
        assert before[..k] == calls[..k];
      }
    }
  }

  lemma {:induction false} PeakIsReachedAt(initialSize: u64, maxSize: u64, calls: seq<Call>) returns (k: nat)
    ensures k <= |calls| && SizeAfter(initialSize, maxSize, calls[..k]) == Run(initialSize, maxSize, calls).peak
    decreases |calls|
  {
    hide Step;
    k := |calls|;
    assert calls[..k] == calls;
    if calls != [] {
      var before := calls[..k - 1];
      PeakIsAtLeast(initialSize, maxSize, before, |before|);
      assert before[..|before|] == before;
      StepPeak(Run(initialSize, maxSize, before), calls[k - 1]);
      if Run(initialSize, maxSize, calls).peak != SizeAfter(initialSize, maxSize, calls) {
        k := PeakIsReachedAt(initialSize, maxSize, before);
        assert before[..k] == calls[..k];
      }
    }
  }

  /** `peak` is the largest size seen at any point of the run. */
  lemma PeakIsTheLargestSize(initialSize: u64, maxSize: u64, calls: seq<Call>)
    ensures forall k :: 0 <= k <= |calls| ==>
              SizeAfter(initialSize, maxSize, calls[..k]) <= Run(initialSize, maxSize, calls).peak
    ensures exists k :: 0 <= k <= |calls| &&
              SizeAfter(initialSize, maxSize, calls[..k]) == Run(initialSize, maxSize, calls).peak
  {
    forall k | 0 <= k <= |calls|
      ensures SizeAfter(initialSize, maxSize, calls[..k]) <= Run(initialSize, maxSize, calls).peak
    {
      PeakIsAtLeast(initialSize, maxSize, calls, k);
    }
    var k := PeakIsReachedAt(initialSize, maxSize, calls);
  }

  /**
   However many items pass through, the array goes by doublings up to the least size that holds 99
   slots more than the most items ever held together.
   */
  lemma MemoryIsBounded(initialSize: u64, maxSize: u64, calls: seq<Call>)
    requires Fits(initialSize, Cap(maxSize, calls))
    ensures var l, start := Run(initialSize, maxSize, calls), StartSize(initialSize);
            && l.q.front + l.q.gcRun <= 100 && l.q.gcRun >= 1
            && Doubled(start, l.q.allocSize)
            && l.q.allocSize <= Grown(start, l.peak + 99) <= Max(start, 2 * (l.peak + 98))
            && (maxSize > 0 ==> l.q.allocSize <= Grown(start, maxSize + 99) <= Max(start, 2 * (maxSize + 98)))
  {
    hide Run, Grown, Doubled;
    RunSound(initialSize, maxSize, calls, Cap(maxSize, calls));
    if maxSize > 0 {
      GrownMonotone(StartSize(initialSize), Run(initialSize, maxSize, calls).peak + 99, maxSize + 99);
    }
  }

  function VacuumCalls(calls: seq<Call>): nat {
    if calls == [] then 0 else
    VacuumCalls(calls[..|calls| - 1]) + if calls[|calls| - 1].VacuumNow? then 1 else 0
  }

  lemma {:induction false} VacuumsCounted(initialSize: u64, maxSize: u64, calls: seq<Call>)
    ensures Run(initialSize, maxSize, calls).vacuums == VacuumCalls(calls)
    decreases |calls|
  {
    if calls != [] {
      VacuumsCounted(initialSize, maxSize, calls[..|calls| - 1]);
    }
  }

  /**
   Copying is paid for: growth copies the array once over, compaction moves at most the peak less one
   per hundred items served, and a vacuum asked for moves at most the peak.
   */
  lemma CopyWorkIsBounded(initialSize: u64, maxSize: u64, calls: seq<Call>)
    requires Fits(initialSize, Cap(maxSize, calls))
    ensures var l := Run(initialSize, maxSize, calls);
            && l.q.gcRun == 100 - |l.served| % 100
            && l.copied == l.q.allocSize - StartSize(initialSize)
            && (l.peak == 0 ==> l.moved == 0)
            && (l.peak > 0 ==> l.moved <= (l.peak - 1) * (|l.served| / 100) + l.peak * VacuumCalls(calls))
            && (maxSize > 0 ==> l.moved <= (maxSize - 1) * (|l.served| / 100) + maxSize * VacuumCalls(calls))
  {
    hide Run;
    RunSound(initialSize, maxSize, calls, Cap(maxSize, calls));
    VacuumsCounted(initialSize, maxSize, calls);
    if maxSize > 0 {
      var l := Run(initialSize, maxSize, calls);
      MoveBoundMonotone(l.peak, maxSize, |l.served|, l.vacuums);
    }
  }

  // ---------- The memory bound is reached ----------

  function Pairs(n: nat): seq<Call> {
    if n == 0 then [] else Pairs(n - 1) + [Enqueue(NULL), Dequeue]
  }

  function Enqueues(n: nat): seq<Call> {
    if n == 0 then [] else Enqueues(n - 1) + [Enqueue(NULL)]
  }

  lemma RunLast(initialSize: u64, maxSize: u64, before: seq<Call>, c: Call)
    ensures Run(initialSize, maxSize, before + [c]) == Step(Run(initialSize, maxSize, before), c)
  {
    assert (before + [c])[..|before|] == before;
  }

  /** Room for one slot more: the array doubles exactly when the slots before it fill it. */
  lemma GrowsForNext(initialSize: u64, n: nat, cap: nat)
    requires Fits(initialSize, cap) && n + 1 <= cap + 99
    ensures var start := StartSize(initialSize);
            && 16 * Grown(start, n) < TWO_64 && Grown(start, n) >= n
            && Grown(start, n + 1) == if n == Grown(start, n) then 2 * Grown(start, n) else Grown(start, n)
  {
    hide Grown;
    GrownStep(StartSize(initialSize), n);
  }

  lemma LastPair(n: nat)
    requires n > 0
    ensures Pairs(n) == Pairs(n - 1) + [Enqueue(NULL)] + [Dequeue]
  {
    Associative(Pairs(n - 1), [Enqueue(NULL)], [Dequeue]);
  }

  lemma LastEnqueue(warmUp: seq<Call>, n: nat)
    requires n > 0
    ensures warmUp + Enqueues(n) == warmUp + Enqueues(n - 1) + [Enqueue(NULL)]
  {
    Associative(warmUp, Enqueues(n - 1), [Enqueue(NULL)]);
  }

  /** An empty queue that has used its first `n` slots, one after the other. */
  predicate Emptied(l: Ledger, initialSize: u64, maxSize: u64, n: nat) {
    && n <= 99 && Grown(StartSize(initialSize), n) < TWO_64
    && l.q == Queue(n, Wrap(n - 1), maxSize, 100 - n, Grown(StartSize(initialSize), n), [])
    && l.peak == if n == 0 then 0 else 1
  }

  lemma OneRound(l: Ledger, initialSize: u64, maxSize: u64, n: nat, cap: nat)
    requires Fits(initialSize, cap) && n < 99 && Emptied(l, initialSize, maxSize, n)
    ensures Emptied(Step(Step(l, Enqueue(NULL)), Dequeue), initialSize, maxSize, n + 1)
  {
    GrowsForNext(initialSize, n, cap);
    hide Grown;
    var pushed := Step(l, Enqueue(NULL));
    assert pushed.q == Queue(n, n, maxSize, 100 - n, Grown(StartSize(initialSize), n + 1), [NULL]);
    assert SizeOf(pushed.q) == 1;
  }

  lemma {:induction false} AfterPairs(initialSize: u64, maxSize: u64, n: nat, cap: nat)
    requires Fits(initialSize, cap) && n <= 99
    ensures Emptied(Run(initialSize, maxSize, Pairs(n)), initialSize, maxSize, n)
  {
    if n > 0 {
      var p := Pairs(n - 1);
      AfterPairs(initialSize, maxSize, n - 1, cap);
      OneRound(Run(initialSize, maxSize, p), initialSize, maxSize, n - 1, cap);
      RunLast(initialSize, maxSize, p, Enqueue(NULL));
      RunLast(initialSize, maxSize, p + [Enqueue(NULL)], Dequeue);
      LastPair(n);
      hide Emptied, Run, Pairs;
    }
    hide Fits, Step;
  }

  /** A queue that holds `n` items behind 99 free slots, and has grown to exactly that. */
  predicate Filled(l: Ledger, initialSize: u64, maxSize: u64, n: nat) {
    && l.q.front == 99 && l.q.rear == 98 + n && l.q.maxSize == maxSize && |l.q.items| == n
    && l.q.allocSize == Grown(StartSize(initialSize), n + 99)
    && l.peak == Max(1, n)
  }

  lemma OneMore(l: Ledger, initialSize: u64, maxSize: u64, n: nat, cap: nat)
    requires Fits(initialSize, cap) && n < cap && (maxSize > 0 ==> cap <= maxSize)
    requires Filled(l, initialSize, maxSize, n)
    ensures Filled(Step(l, Enqueue(NULL)), initialSize, maxSize, n + 1)
  {
    GrowsForNext(initialSize, n + 99, cap);
    hide Grown;
  }

  lemma {:induction false} AfterEnqueues(initialSize: u64, maxSize: u64, warmUp: seq<Call>, n: nat, cap: nat)
    requires Fits(initialSize, cap) && n <= cap && (maxSize > 0 ==> cap <= maxSize)
    requires Filled(Run(initialSize, maxSize, warmUp), initialSize, maxSize, 0)
    ensures Filled(Run(initialSize, maxSize, warmUp + Enqueues(n)), initialSize, maxSize, n)
  {
    hide Run, Step, Filled, Fits;
    if n == 0 {
      assert warmUp + Enqueues(n) == warmUp;
    } else {
      var before := warmUp + Enqueues(n - 1);
      AfterEnqueues(initialSize, maxSize, warmUp, n - 1, cap);
      OneMore(Run(initialSize, maxSize, before), initialSize, maxSize, n - 1, cap);
      RunLast(initialSize, maxSize, before, Enqueue(NULL));
      LastEnqueue(warmUp, n);
      hide Enqueues;
    }
  }

  /**
   No smaller bound would do, for any initial size: some run that never holds more than `peak` items
   ends with exactly the bound allocated.
   */
  lemma MemoryBoundIsReached(initialSize: u64, maxSize: u64, peak: nat)
    requires peak > 0 && (maxSize > 0 ==> peak <= maxSize) && Fits(initialSize, peak)
    ensures exists calls ::
              && Run(initialSize, maxSize, calls).peak == peak
              && Run(initialSize, maxSize, calls).q.allocSize == Grown(StartSize(initialSize), peak + 99)
  {
    var rounds := GC_COUNT - 1;
    AfterPairs(initialSize, maxSize, rounds, peak);
    hide Run, Grown;
    AfterEnqueues(initialSize, maxSize, Pairs(rounds), peak, peak);
    assert Run(initialSize, maxSize, Pairs(rounds) + Enqueues(peak)).peak == peak;
  }

  /** With a maximum size, the most memory any run can use is known exactly. */
  lemma MostMemory(initialSize: u64, maxSize: u64, most: nat)
    requires maxSize > 0 && Fits(initialSize, maxSize)
    ensures most == Grown(StartSize(initialSize), maxSize + 99) <==>
            && (forall calls :: Run(initialSize, maxSize, calls).q.allocSize <= most)
            && (exists calls :: Run(initialSize, maxSize, calls).q.allocSize == most)
  {
    hide Run, Grown, Doubled;
    forall calls
      ensures Run(initialSize, maxSize, calls).q.allocSize <= Grown(StartSize(initialSize), maxSize + 99)
    {
      MemoryIsBounded(initialSize, maxSize, calls);
    }
    MemoryBoundIsReached(initialSize, maxSize, maxSize);
  }
}
