/**
 A queue together with the history of its use: what was accepted, what was served, the largest size
 ever reached, and how many slots growth and compaction have copied. The single-threaded API and
 the monitor both change the queue only through the three transitions below, so what `Sound` says
 holds for every run of either.
 */
module QueueLedger {
  import opened Machine
  import opened QueueModel
  import opened Seqs
  import opened Doubling

  datatype Ledger = Ledger(
    q: Queue,
    accepted: seq<Pointer>,
    served: seq<Pointer>,
    peak: nat,
    vacuums: nat,
    copied: nat,
    moved: nat)

  function Start(initialSize: u64, maxSize: u64): Ledger {
    Ledger(Init(initialSize, maxSize), [], [], 0, 0, 0, 0)
  }

  function AfterPush(l: Ledger, x: Pointer): Ledger {
    l.(q := Push(l.q, x),
       accepted := l.accepted + [x],
       peak := Max(l.peak, |l.q.items| + 1),
       copied := l.copied + if Grows(l.q) then l.q.allocSize else 0)
  }

  function AfterPop(l: Ledger): Ledger {
    l.(q := Pop(l.q),
       served := l.served + [Oldest(l.q.items)],
       moved := l.moved + if l.q.gcRun == 1 then |WithoutOldest(l.q.items)| else 0)
  }

  /** A compaction asked for by the caller. */
  function AfterVacuum(l: Ledger): Ledger {
    l.(q := Vacuum(l.q),
       vacuums := l.vacuums + 1,
       moved := l.moved + if l.q.front == 0 then 0 else |l.q.items|)
  }

  // ---------- What every run keeps ----------

  /** The most slots the array can have on a queue that never held more than `peak` items. */
  function AllocBound(initialSize: u64, peak: nat): nat {
    Grown(StartSize(initialSize), peak + GC_COUNT - 1)
  }

  /** Doubling the array never overflows on a queue that never holds more than `cap` items. */
  predicate Fits(initialSize: u64, cap: nat) {
    16 * Max(StartSize(initialSize), 2 * (cap + GC_COUNT - 2)) < TWO_64
  }

  /** Which is all that is asked: sizes below 2^60 and 2^59 slots. */
  lemma FitsIs(initialSize: u64, cap: nat)
    ensures Fits(initialSize, cap) <==> initialSize < 0x1000_0000_0000_0000 && cap + 98 < 0x800_0000_0000_0000
  {
  }

  predicate Sound(l: Ledger, initialSize: u64, maxSize: u64, cap: nat) {
    && Inv(l.q)
    && l.q.maxSize == maxSize
    // First in, first out, nothing lost and nothing invented.
    && l.accepted == l.served + l.q.items
    // Sizes.
    && |l.q.items| <= l.peak <= cap
    && (maxSize > 0 ==> l.peak <= maxSize)
    && Doubled(StartSize(initialSize), l.q.allocSize)
    && StartSize(initialSize) <= l.q.allocSize <= AllocBound(initialSize, l.peak)
    // Work.
    && l.q.gcRun == GC_COUNT - |l.served| % GC_COUNT
    && l.copied == l.q.allocSize - StartSize(initialSize)
    && l.moved <= MoveBound(l.peak, |l.served|, l.vacuums)
  }

  /** The most slots compaction can have moved on a queue that never held more than `peak` items. */
  function MoveBound(peak: nat, served: nat, vacuums: nat): nat {
    if peak == 0 then 0 else (peak - 1) * (served / GC_COUNT) + peak * vacuums
  }

  lemma StartSound(initialSize: u64, maxSize: u64, cap: nat)
    requires Fits(initialSize, cap)
    ensures Sound(Start(initialSize, maxSize), initialSize, maxSize, cap)
  {
    InitInv(initialSize, maxSize);
  }

  lemma MoveBoundMonotone(p: nat, q: nat, served: nat, vacuums: nat)
    requires p <= q
    ensures MoveBound(p, served, vacuums) <= MoveBound(q, served, vacuums)
  {
    var k := served / GC_COUNT;
    if p > 0 {
      assert (q - 1) * k == (p - 1) * k + (q - p) * k && (q - p) * k >= 0;
      assert q * vacuums == p * vacuums + (q - p) * vacuums && (q - p) * vacuums >= 0;
    }
  }

  /** Only every hundredth item served buys compaction work, and then at most the peak less one. */
  lemma MoveBoundAfterPop(peak: nat, served: nat, vacuums: nat)
    requires peak > 0
    ensures MoveBound(peak, served + 1, vacuums) ==
            MoveBound(peak, served, vacuums) + if served % GC_COUNT == GC_COUNT - 1 then peak - 1 else 0
  {
    var k := served / GC_COUNT;
    assert (served + 1) / GC_COUNT == if served % GC_COUNT == GC_COUNT - 1 then k + 1 else k;
    assert (peak - 1) * (k + 1) == (peak - 1) * k + (peak - 1);
  }

  lemma MoveBoundAfterVacuum(peak: nat, served: nat, vacuums: nat)
    ensures MoveBound(peak, served, vacuums + 1) == MoveBound(peak, served, vacuums) + peak
  {
    assert peak * (vacuums + 1) == peak * vacuums + peak;
  }

  /** Growth goes from one doubled size to the next, and never beyond the bound of the new peak. */
  lemma GrowthSound(q: Queue, x: Pointer, initialSize: u64, peak: nat)
    requires Inv(q) && !Full(q) && 16 * q.allocSize < TWO_64
    requires Doubled(StartSize(initialSize), q.allocSize) && q.allocSize <= AllocBound(initialSize, peak)
    ensures var alloc, newPeak := Push(q, x).allocSize, Max(peak, |q.items| + 1);
            Doubled(StartSize(initialSize), alloc) && q.allocSize <= alloc <= AllocBound(initialSize, newPeak)
  {
    PushInv(q, x);
    hide Grown, Doubled, Full, Grows;
    var start, newPeak := StartSize(initialSize), Max(peak, |q.items| + 1);
    if Grows(q) {
      DoubledOnce(start, q.allocSize, newPeak + GC_COUNT - 1);
    } else {
      assert Push(q, x).allocSize == q.allocSize;
      GrownMonotone(start, peak + GC_COUNT - 1, newPeak + GC_COUNT - 1);
    }
  }

  lemma AllocFits(initialSize: u64, peak: nat, cap: nat)
    requires Fits(initialSize, cap) && peak <= cap
    ensures 16 * AllocBound(initialSize, peak) < TWO_64
  {
    hide Grown;
  }

  lemma PushSound(l: Ledger, x: Pointer, initialSize: u64, maxSize: u64, cap: nat)
    requires Fits(initialSize, cap) && Sound(l, initialSize, maxSize, cap)
    requires !Full(l.q) && |l.q.items| < cap
    ensures Sound(AfterPush(l, x), initialSize, maxSize, cap)
    ensures 16 * l.q.allocSize < TWO_64
  {
    AllocFits(initialSize, l.peak, cap);
    PushInv(l.q, x);
    GrowthSound(l.q, x, initialSize, l.peak);
    MoveBoundMonotone(l.peak, AfterPush(l, x).peak, |l.served|, l.vacuums);
    hide MoveBound, AllocBound, Doubled;
    Associative(l.served, l.q.items, [x]);
  }

  lemma Countdown(served: nat)
    ensures (served + 1) % GC_COUNT == if served % GC_COUNT == GC_COUNT - 1 then 0 else served % GC_COUNT + 1
  {
  }

  lemma PopSound(l: Ledger, initialSize: u64, maxSize: u64, cap: nat)
    requires Sound(l, initialSize, maxSize, cap) && l.q.items != []
    ensures Sound(AfterPop(l), initialSize, maxSize, cap)
  {
    PopInv(l.q);
    MoveBoundAfterPop(l.peak, |l.served|, l.vacuums);
    Countdown(|l.served|);
    hide MoveBound, AllocBound, Doubled, Inv, Pop;
    Associative(l.served, [l.q.items[0]], l.q.items[1..]);
    assert [l.q.items[0]] + l.q.items[1..] == l.q.items;
  }

  lemma VacuumSound(l: Ledger, initialSize: u64, maxSize: u64, cap: nat)
    requires Sound(l, initialSize, maxSize, cap)
    ensures Sound(AfterVacuum(l), initialSize, maxSize, cap)
  {
    VacuumInv(l.q);
    MoveBoundAfterVacuum(l.peak, |l.served|, l.vacuums);
    hide MoveBound, AllocBound, Doubled;
  }
}
