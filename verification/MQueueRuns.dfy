/** The queue object under any sequence of calls: the run theorems, carried over to the class. */
module MQueueRuns {
  import opened Machine
  import opened QueueModel
  import opened QueueLedger
  import opened QueueRuns
  import opened MQueue

  /** One call of the object is one step of the run, in contents, counters and copying. */
  method Perform(q: MQueue.Queue, c: Call, ghost l: Ledger) returns (answer: u64)
    requires q.Valid() && q.View() == l.q && 16 * l.q.allocSize < TWO_64
    requires q.copied == l.copied && q.moved == l.moved
    modifies q, q.data
    ensures q.Valid() && (q.data == old(q.data) || fresh(q.data))
    ensures q.View() == Step(l, c).q && answer == Answer(l.q, c)
    ensures q.copied == Step(l, c).copied && q.moved == Step(l, c).moved
  {
    answer := 0;
    SizeIsLength(l.q);
    hide Inv, Push, Pop, Vacuum, Grows, SizeOf;
    match c
    case Enqueue(x) =>
      PushedLength(l.q, x);
      answer := q.Enqueue(x);
    case Dequeue =>
      answer := q.Dequeue();
    case VacuumNow =>
      q.VacuumNow();
  }

  lemma PushedLength(q: QueueModel.Queue, x: Pointer)
    requires Inv(q) && 16 * q.allocSize < TWO_64
    ensures !Full(q) ==> SizeOf(Push(q, x)) == |q.items| + 1
  {
    if !Full(q) {
      PushInv(q, x);
    }
  }

  /** Room to grow is never wanting on a run that fits, however long. */
  lemma GrowthFits(initialSize: u64, maxSize: u64, calls: seq<Call>, n: nat)
    requires Fits(initialSize, Cap(maxSize, calls)) && n <= |calls|
    ensures 16 * Run(initialSize, maxSize, calls[..n]).q.allocSize < TWO_64
  {
    hide Run;
    RunSound(initialSize, maxSize, calls[..n], Cap(maxSize, calls));
    AllocFits(initialSize, Run(initialSize, maxSize, calls[..n]).peak, Cap(maxSize, calls));
  }

  lemma OneCallMore(initialSize: u64, maxSize: u64, calls: seq<Call>, n: nat)
    requires n < |calls|
    ensures Run(initialSize, maxSize, calls[..n + 1]) == Step(Run(initialSize, maxSize, calls[..n]), calls[n])
    ensures Answers(initialSize, maxSize, calls[..n + 1]) ==
            Answers(initialSize, maxSize, calls[..n]) + [Answer(Run(initialSize, maxSize, calls[..n]).q, calls[n])]
  {
    assert calls[..n + 1][..n] == calls[..n];
  }

  /**
   A fresh queue object driven through any calls answers and holds what a plain sequence would, and its
   copying is that of the run. With a maximum size there is no limit on the number of calls.
   */
  method Drive(initialSize: u64, maxSize: u64, calls: seq<Call>) returns (q: MQueue.Queue, answers: seq<u64>)
    requires Fits(initialSize, Cap(maxSize, calls))
    ensures fresh(q) && q.Valid() && q.View() == Run(initialSize, maxSize, calls).q
    ensures q.Contents() == PlainRun(maxSize, calls) && answers == PlainAnswers(maxSize, calls)
    ensures q.copied == Run(initialSize, maxSize, calls).copied && q.moved == Run(initialSize, maxSize, calls).moved
  {
    q := new MQueue.Queue(initialSize, maxSize);
    answers := [];
    var i := 0;
    while i < |calls|
      invariant 0 <= i <= |calls|
      invariant fresh(q) && fresh(q.data) && q.Valid()
      invariant q.View() == Run(initialSize, maxSize, calls[..i]).q
      invariant q.copied == Run(initialSize, maxSize, calls[..i]).copied
      invariant q.moved == Run(initialSize, maxSize, calls[..i]).moved
      invariant answers == Answers(initialSize, maxSize, calls[..i])
    {
      GrowthFits(initialSize, maxSize, calls, i);
      OneCallMore(initialSize, maxSize, calls, i);
      hide Run, Answers, Step, Answer, Inv;
      var answer := Perform(q, calls[i], Run(initialSize, maxSize, calls[..i]));
      answers := answers + [answer];
      i := i + 1;
    }
    assert calls[..i] == calls;
    RunRefinesPlainSequence(initialSize, maxSize, calls, Cap(maxSize, calls));
  }
}
