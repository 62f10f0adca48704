/**
 The bookkeeping of one `mqueue_t` as a value: the five counters exactly as the code stores them,
 and the items it holds, oldest first. Every counter update is written as the C code performs it,
 modulo 2^64; that the counters agree with the items is the invariant `Inv`.
 */
module QueueModel {
  import opened Machine

  const GC_COUNT := 100

  datatype Queue = Queue(front: u64, rear: u64, maxSize: u64, gcRun: u64, allocSize: u64, items: seq<Pointer>)

  function StartSize(initialSize: u64): (n: u64)
    ensures n >= 1 && n >= initialSize && (n == initialSize || n == 1)
  {
    if initialSize < 1 then 1 else initialSize
  }

  function Init(initialSize: u64, maxSize: u64): Queue {
    Queue(0, TWO_64 - 1, maxSize, GC_COUNT, StartSize(initialSize), [])
  }

  /** What `mqueue_size_int` computes from the two cursors. */
  function SizeOf(q: Queue): u64 {
    Wrap(q.rear + 1 - q.front)
  }

  predicate Full(q: Queue) {
    q.maxSize > 0 && SizeOf(q) == q.maxSize
  }

  predicate Empty(q: Queue) {
    SizeOf(q) == 0
  }

  /** The array must grow before the next item is stored. */
  predicate Grows(q: Queue) {
    Wrap(q.rear + 1) == q.allocSize
  }

  function Push(q: Queue, x: Pointer): Queue {
    q.(rear := Wrap(q.rear + 1),
       allocSize := if Grows(q) then Wrap(q.allocSize * 2) else q.allocSize,
       items := q.items + [x])
  }

  function Vacuum(q: Queue): Queue {
    if q.front == 0 then q else q.(rear := Wrap(q.rear - q.front), front := 0)
  }

  function Oldest(items: seq<Pointer>): Pointer {
    if items == [] then NULL else items[0]
  }

  function WithoutOldest(items: seq<Pointer>): seq<Pointer> {
    if items == [] then [] else items[1..]
  }

  /** The cursor part of a dequeue, before any housekeeping. */
  function Advance(q: Queue): Queue {
    q.(front := Wrap(q.front + 1), gcRun := Wrap(q.gcRun - 1), items := WithoutOldest(q.items))
  }

  function Pop(q: Queue): Queue {
    var a := Advance(q);
    if a.gcRun == 0 then Vacuum(a).(gcRun := GC_COUNT) else a
  }

  /** Every live slot lies inside the array, and the counters describe the items. */
  predicate Inv(q: Queue) {
    && q.front + |q.items| <= q.allocSize
    && q.rear == Wrap(q.front + |q.items| - 1)
    && 1 <= q.gcRun
    && q.front + q.gcRun <= GC_COUNT
    && 1 <= q.allocSize
    && 8 * q.allocSize < TWO_64
    && (q.maxSize > 0 ==> |q.items| <= q.maxSize)
  }

  lemma SizeIsLength(q: Queue)
    requires Inv(q)
    ensures SizeOf(q) == |q.items|
  {
  }

  lemma InitInv(initialSize: u64, maxSize: u64)
    requires 8 * StartSize(initialSize) < TWO_64
    ensures Inv(Init(initialSize, maxSize))
    ensures SizeOf(Init(initialSize, maxSize)) == 0
  {
  }

  /** Storing an item keeps the invariant, and the slot written is a live one of the grown array. */
  lemma PushInv(q: Queue, x: Pointer)
    requires Inv(q) && !Full(q)
    requires 16 * q.allocSize < TWO_64
    ensures Inv(Push(q, x))
    ensures Push(q, x).rear == q.front + |q.items| < Push(q, x).allocSize
    ensures SizeOf(Push(q, x)) == |q.items| + 1
    ensures Grows(q) <==> q.front + |q.items| == q.allocSize
    ensures Grows(q) ==> Push(q, x).allocSize == 2 * q.allocSize
  {
  }

  /** The counters after a push, without wrap-around. */
  lemma PushFields(q: Queue, x: Pointer)
    requires Inv(q) && !Full(q) && 16 * q.allocSize < TWO_64
    ensures var n, p := |q.items|, Push(q, x);
            && Inv(p) && Wrap(q.rear + 1) == q.front + n <= q.allocSize
            && (Grows(q) <==> q.front + n == q.allocSize)
            && p == Queue(q.front, q.front + n, q.maxSize, q.gcRun,
                          if q.front + n == q.allocSize then 2 * q.allocSize else q.allocSize, q.items + [x])
  {
    PushInv(q, x);
  }

  lemma StoredLength(q: Queue, x: Pointer)
    ensures |Push(q, x).items| == |q.items| + 1
  {
  }

  lemma WrapInside(x: int)
    requires 0 <= x < TWO_64
    ensures Wrap(x) == x
  {
  }

  lemma VacuumInv(q: Queue)
    requires Inv(q)
    ensures Inv(Vacuum(q))
    ensures Vacuum(q).front == 0
    ensures Vacuum(q).rear == Wrap(|q.items| - 1)
  {
  }

  /** The counters after the cursor part of a dequeue, without wrap-around. */
  lemma AdvanceFields(q: Queue)
    requires Inv(q) && q.items != []
    ensures var a, n := Advance(q), |q.items|;
            && Wrap(q.front + 1) == q.front + 1 && Wrap(q.gcRun - 1) == q.gcRun - 1
            && a == Queue(q.front + 1, q.rear, q.maxSize, q.gcRun - 1, q.allocSize, q.items[1..])
            && Wrap(q.rear + 1 - (q.front + 1)) == n - 1 && q.front + n <= q.allocSize
            && q.rear == Wrap(q.front + n - 1)
  {
  }

  lemma PopInv(q: Queue)
    requires Inv(q) && q.items != []
    ensures Inv(Pop(q))
    ensures Pop(q).items == q.items[1..] && SizeOf(Pop(q)) == |q.items| - 1
    ensures Pop(q).maxSize == q.maxSize && Pop(q).allocSize == q.allocSize
    ensures Pop(q).front == if q.gcRun == 1 then 0 else q.front + 1
    ensures Pop(q).gcRun == if q.gcRun == 1 then GC_COUNT else q.gcRun - 1
  {
  }
}
