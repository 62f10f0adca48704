/** Sums over all threads of a system, and what one step does to them. */
module Threads {
  import opened Machine

  /** What a thread still has to do with the queue, oldest operation first. */
  datatype Op = Put(item: Pointer) | Get

  /**
   Where a thread stands in `mqueue_enqueue` or `mqueue_dequeue`.

   Idle: outside. Check: holding the mutex, at the test of the wait loop. Act: holding the mutex,
   test passed. SignalEmpty, SignalFull: holding the mutex, queue changed, condition not yet
   signalled. Leave: holding the mutex, about to release it. AsleepFull, AsleepEmpty: inside
   `cnd_wait`, not signalled. WokenFull, WokenEmpty: inside `cnd_wait`, waiting to get the mutex back.
   */
  datatype PC =
    | Idle | Check | Act | SignalEmpty | SignalFull | Leave
    | AsleepFull | AsleepEmpty | WokenFull | WokenEmpty

  /**
   The head of `todo` is the operation under way; it leaves the list when the queue is changed. `got`
   holds the items its dequeues have returned, and `sizes` the lengths its enqueues have returned.
   */
  datatype Thread = Thread(pc: PC, todo: seq<Op>, got: seq<Pointer>, sizes: seq<u64>)

  predicate InCriticalSection(t: Thread) {
    t.pc in {Check, Act, SignalEmpty, SignalFull, Leave}
  }

  function Sum(ts: seq<Thread>, f: Thread -> nat): nat {
    if ts == [] then 0 else f(ts[0]) + Sum(ts[1..], f)
  }

  lemma {:induction false} SumUpdate(ts: seq<Thread>, f: Thread -> nat, i: nat, t: Thread)
    requires i < |ts|
    ensures Sum(ts[i := t], f) + f(ts[i]) == Sum(ts, f) + f(t)
  {
    if i == 0 {
      assert ts[0 := t][1..] == ts[1..];
    } else {
      assert ts[i := t][1..] == ts[1..][i - 1 := t];
      SumUpdate(ts[1..], f, i - 1, t);
    }
  }

  lemma {:induction false} SumAtLeast(ts: seq<Thread>, f: Thread -> nat, i: nat)
    requires i < |ts|
    ensures f(ts[i]) <= Sum(ts, f)
  {
    if i > 0 {
      SumAtLeast(ts[1..], f, i - 1);
    }
  }

  lemma {:induction false} SumZero(ts: seq<Thread>, f: Thread -> nat)
    requires forall i :: 0 <= i < |ts| ==> f(ts[i]) == 0
    ensures Sum(ts, f) == 0
  {
    if ts != [] {
      SumZero(ts[1..], f);
    }
  }

  lemma {:induction false} SumWitness(ts: seq<Thread>, f: Thread -> nat) returns (i: nat)
    requires Sum(ts, f) > 0
    ensures i < |ts| && f(ts[i]) > 0
  {
    if f(ts[0]) > 0 {
      i := 0;
    } else {
      i := SumWitness(ts[1..], f);
      i := i + 1;
    }
  }
}
