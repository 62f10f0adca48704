/**
 The linked-list macros of madt.h, for any node type with a `next` pointer. The macros work on the
 caller's own pointer variables; here these are in- and out-parameters. `check` is the caller's
 test, already holding its handle.
 */
module LinkedList {
  import opened Seqs

  class Node<T> {
    var payload: T
    var next: Node?<T>

    constructor (payload: T)
      ensures this.payload == payload && next == null
    {
      this.payload := payload;
      next := null;
    }
  }

  /** `start` heads a list of exactly `nodes`, in this order and with no cycle. */
  ghost predicate IsList<T>(start: Node?<T>, nodes: seq<Node<T>>)
    reads nodes`next
  {
    && start == (if nodes == [] then null else nodes[0])
    && (forall i {:trigger nodes[i].next} :: 0 <= i < |nodes| ==>
          nodes[i].next == if i + 1 < |nodes| then nodes[i + 1] else null)
    && forall i, j :: 0 <= i < j < |nodes| ==> nodes[i] != nodes[j]
  }

  /** `marks` says which nodes pass the caller's test. */
  ghost predicate Marks<T>(nodes: seq<Node<T>>, check: T -> bool, marks: seq<bool>)
    reads nodes
  {
    |marks| == |nodes| && forall i :: 0 <= i < |nodes| ==> marks[i] == check(nodes[i].payload)
  }

  method Add<T>(start: Node?<T>, newNode: Node<T>, ghost nodes: seq<Node<T>>)
    returns (start': Node?<T>, current: Node<T>)
    requires IsList(start, nodes) && newNode !in nodes && newNode.next == null
    modifies (set n | n in nodes)`next
    ensures IsList(start', nodes + [newNode])
    ensures forall n :: n in nodes && n != (nodes + [newNode])[|nodes| - 1] ==> n.next == old(n.next)
  {
    if start == null {
      return newNode, newNode;
    }
    start' := start;
    current := start;
    ghost var k := 0;
    while current.next != null
      invariant 0 <= k < |nodes| && current == nodes[k]
      decreases |nodes| - k
    {
      current := current.next;
      k := k + 1;
    }
    current.next := newNode;
  }

  /** The first node that passes the test, which is at place `at`, or NULL when there is none. */
  method Find<T>(start: Node?<T>, check: T -> bool, ghost nodes: seq<Node<T>>)
    returns (current: Node?<T>, ghost at: int)
    requires IsList(start, nodes)
    ensures -1 <= at < |nodes|
    ensures current == if at < 0 then null else nodes[at]
    ensures current != null ==> check(current.payload)
    ensures forall i :: 0 <= i < (if at < 0 then |nodes| else at) ==> !check(nodes[i].payload)
  {
    if start == null {
      return null, -1;
    }
    current := start;
    at := 0;
    while current != null
      invariant 0 <= at <= |nodes|
      invariant current == if at < |nodes| then nodes[at] else null
      invariant forall i :: 0 <= i < at ==> !check(nodes[i].payload)
      decreases |nodes| - at
    {
      if check(current.payload) {
        return;
      }
      current := current.next;
      at := at + 1;
    }
    at := -1;
  }

  method Length<T>(start: Node?<T>, ghost nodes: seq<Node<T>>) returns (length: nat)
    requires IsList(start, nodes)
    ensures length == |nodes|
  {
    length := 0;
    var current := start;
    while current != null
      invariant 0 <= length <= |nodes|
      invariant current == if length < |nodes| then nodes[length] else null
      decreases |nodes| - length
    {
      length := length + 1;
      current := current.next;
    }
  }

  // ---------- Removal ----------

  /** The elements not marked. */
  function Without<A>(xs: seq<A>, marks: seq<bool>): seq<A>
    requires |xs| == |marks|
  {
    if xs == [] then []
    else (if marks[0] then [] else [xs[0]]) + Without(xs[1..], marks[1..])
  }

  /** The length of the run of marks at the front. */
  function Leading(marks: seq<bool>): (n: nat)
    ensures n <= |marks| && (forall i :: 0 <= i < n ==> marks[i]) && (n < |marks| ==> !marks[n])
  {
    if marks == [] || !marks[0] then 0 else 1 + Leading(marks[1..])
  }

  /** What the caller's `previous` is when the macro begins: NULL, the head, or a node that is not in the list. */
  datatype Entry = AtNull | AtHead | Outside

  /**
   What is left of a run of matches at the front. From NULL the head is unlinked and the rest of the run
   stays, as the macro goes on working through the head it has unlinked; from the head the rest of the
   run goes and the head stays; from outside the run stays.
   */
  function Front<A>(xs: seq<A>, from: Entry): seq<A> {
    if xs == [] || from.Outside? then xs
    else if from.AtNull? then xs[1..]
    else xs[..1]
  }

  /** What the macro really leaves in the list: of a run of matches at the front, `Front`; later matches all go. */
  function Kept<A>(xs: seq<A>, marks: seq<bool>, from: Entry): seq<A>
    requires |xs| == |marks|
  {
    var n := Leading(marks);
    Front(xs[..n], from) + Without(xs[n..], marks[n..])
  }

  /** The place of the last mark, or -1. */
  function LastMark(marks: seq<bool>): (k: int)
    ensures -1 <= k < |marks| && (k >= 0 ==> marks[k]) && forall i :: k < i < |marks| ==> !marks[i]
  {
    if marks == [] then -1
    else if marks[|marks| - 1] then |marks| - 1
    else LastMark(marks[..|marks| - 1])
  }

  ghost function NodeAfter<T>(nodes: seq<Node<T>>, k: nat): Node?<T> {
    if k + 1 < |nodes| then nodes[k + 1] else null
  }

  ghost function NodeAt<T>(nodes: seq<Node<T>>, k: int, none: Node?<T>): Node?<T>
    requires k < |nodes|
  {
    if k < 0 then none else nodes[k]
  }

  lemma {:induction false} WithoutKeepsRest<A>(xs: seq<A>, marks: seq<bool>, k: nat)
    requires |xs| == |marks| && k < |xs| && forall i :: 0 <= i < |xs| ==> (marks[i] <==> i == k)
    ensures Without(xs, marks) == xs[..k] + xs[k + 1..]
  {
    if k == 0 {
      WithoutNone(xs[1..], marks[1..]);
    } else {
      WithoutKeepsRest(xs[1..], marks[1..], k - 1);
      assert xs[..k] == [xs[0]] + xs[1..][..k - 1];
      assert xs[k + 1..] == xs[1..][k..];
    }
  }

  lemma {:induction false} WithoutNone<A>(xs: seq<A>, marks: seq<bool>)
    requires |xs| == |marks| && forall i :: 0 <= i < |xs| ==> !marks[i]
    ensures Without(xs, marks) == xs
  {
    if xs != [] {
      WithoutNone(xs[1..], marks[1..]);
    }
  }

  lemma {:induction false} WithoutRun<A>(xs: seq<A>, marks: seq<bool>, n: nat)
    requires |xs| == |marks| && n <= Leading(marks)
    ensures Without(xs, marks) == Without(xs[n..], marks[n..])
  {
    if n == 0 {
      assert xs[0..] == xs && marks[0..] == marks;
    } else {
      WithoutRun(xs[1..], marks[1..], n - 1);
      assert xs[1..][n - 1..] == xs[n..] && marks[1..][n - 1..] == marks[n..];
    }
  }

  lemma LeadingIs(marks: seq<bool>)
    ensures Leading(marks) == 0 <==> marks == [] || !marks[0]
    ensures Leading(marks) >= 2 <==> |marks| >= 2 && marks[0] && marks[1]
  {
    if |marks| >= 2 {
      assert Leading(marks[1..]) >= 1 <==> marks[1];
    }
  }

  lemma NothingInFront<A>(front: seq<A>, rest: seq<A>)
    ensures front + rest == rest <==> front == []
  {
    assert |front + rest| == |front| + |rest|;
  }

  /**
   The macro removes every match exactly when the head does not match, or `previous` is NULL and the first
   two nodes do not both match.
   */
  lemma RemovesEveryMatch<A>(xs: seq<A>, marks: seq<bool>, from: Entry)
    requires |xs| == |marks|
    ensures Kept(xs, marks, from) == Without(xs, marks) <==>
            || marks == [] || !marks[0]
            || (from.AtNull? && !(|marks| >= 2 && marks[1]))
  {
    var n := Leading(marks);
    WithoutRun(xs, marks, n);
    LeadingIs(marks);
    NothingInFront(Front(xs[..n], from), Without(xs[n..], marks[n..]));
    hide Without, Leading;
  }

  predicate Distinct<A(==)>(xs: seq<A>) {
    forall i, j :: 0 <= i < j < |xs| ==> xs[i] != xs[j]
  }

  lemma {:induction false} WithoutComesFrom<A>(xs: seq<A>, marks: seq<bool>, x: A)
    requires |xs| == |marks| && x in Without(xs, marks)
    ensures exists j :: 0 <= j < |xs| && !marks[j] && xs[j] == x
  {
    if !marks[0] && xs[0] == x {
    } else {
      WithoutComesFrom(xs[1..], marks[1..], x);
      var j :| 0 <= j < |xs| - 1 && !marks[1..][j] && xs[1..][j] == x;
      assert !marks[j + 1] && xs[j + 1] == x;
    }
  }

  /** A marked element is gone, wherever one starts. */
  lemma MarkedIsNotWithout<A>(xs: seq<A>, marks: seq<bool>, n: nat, k: nat)
    requires |xs| == |marks| && n <= |xs| && k < |xs| && marks[k] && Distinct(xs)
    ensures xs[k] !in Without(xs[n..], marks[n..])
  {
    if xs[k] in Without(xs[n..], marks[n..]) {
      WithoutComesFrom(xs[n..], marks[n..], xs[k]);
      assert false;
    }
  }

  lemma InFront<A>(xs: seq<A>, n: nat, k: nat, from: Entry)
    requires n <= |xs| && k < |xs| && Distinct(xs)
    ensures xs[k] in Front(xs[..n], from) <==>
            k < n && match from case AtNull => k > 0 case AtHead => k == 0 case Outside => true
  {
    if k < n {
      assert xs[..n][k] == xs[k];
      if from.AtNull? && k > 0 {
        assert xs[..n][1..][k - 1] == xs[k];
      }
    }
  }

  /**
   The node handed back as removed is in truth still in the list exactly when no node matches behind the
   matches at the front, and these are two or more, or exactly one, or any, as `previous` was NULL, the
   head, or outside.
   */
  lemma HandedBackButKept<A>(xs: seq<A>, marks: seq<bool>, from: Entry)
    requires |xs| == |marks| && LastMark(marks) >= 0 && Distinct(xs)
    ensures xs[LastMark(marks)] in Kept(xs, marks, from) <==>
            && LastMark(marks) == Leading(marks) - 1
            && match from case AtNull => Leading(marks) >= 2 case AtHead => Leading(marks) == 1 case Outside => true
  {
    var n, k := Leading(marks), LastMark(marks);
    assert marks[k] && (n > 0 ==> marks[n - 1]);
    hide Without, Leading, LastMark, Front;
    MarkedIsNotWithout(xs, marks, n, k);
    InFront(xs, n, k, from);
  }

  /** A single match goes, wherever it is, and nothing else does, unless it is the head and `previous` was not NULL. */
  lemma RemovesTheMatch<A>(xs: seq<A>, marks: seq<bool>, k: nat, from: Entry)
    requires |xs| == |marks| && k < |xs| && forall i :: 0 <= i < |xs| ==> (marks[i] <==> i == k)
    ensures Kept(xs, marks, from) == if k == 0 && !from.AtNull? then xs else xs[..k] + xs[k + 1..]
    ensures LastMark(marks) == k
  {
    WithoutKeepsRest(xs, marks, k);
    assert marks[k];
    if k == 0 && !from.AtNull? {
      assert Leading(marks) == 1;
      WithoutNone(xs[1..], marks[1..]);
      assert Front(xs[..1], from) == xs[..1];
    } else {
      RemovesEveryMatch(xs, marks, from);
    }
  }

  lemma RemovesNothing<A>(xs: seq<A>, marks: seq<bool>, from: Entry)
    requires |xs| == |marks| && forall i :: 0 <= i < |xs| ==> !marks[i]
    ensures Kept(xs, marks, from) == xs && LastMark(marks) == -1
  {
    WithoutNone(xs, marks);
    assert xs[0..] == xs && marks[0..] == marks;
  }

  /** Node `k` is still in the list after the macro has looked at it. */
  predicate Stays(marks: seq<bool>, k: nat, from: Entry)
    requires k < |marks|
  {
    || !marks[k]
    || (k < Leading(marks) && match from case AtNull => k > 0 case AtHead => k == 0 case Outside => true)
  }

  /** The nodes still in the list, out of the first `k`, after the macro has looked at those. */
  function KeptUpTo<A>(xs: seq<A>, marks: seq<bool>, k: nat, from: Entry): seq<A>
    requires |xs| == |marks| && k <= |xs|
  {
    if k == 0 then []
    else KeptUpTo(xs, marks, k - 1, from) + if Stays(marks, k - 1, from) then [xs[k - 1]] else []
  }

  lemma FrontStep<A>(xs: seq<A>, k: nat, from: Entry)
    requires 0 < k <= |xs|
    ensures var stays := match from case AtNull => k > 1 case AtHead => k == 1 case Outside => true;
            Front(xs[..k], from) == Front(xs[..k - 1], from) + if stays then [xs[k - 1]] else []
  {
    assert xs[..k] == xs[..k - 1] + [xs[k - 1]];
  }

  lemma {:induction false} KeptUpToRun<A>(xs: seq<A>, marks: seq<bool>, k: nat, from: Entry)
    requires |xs| == |marks| && k <= Leading(marks)
    ensures KeptUpTo(xs, marks, k, from) == Front(xs[..k], from)
  {
    if k > 0 {
      KeptUpToRun(xs, marks, k - 1, from);
      FrontStep(xs, k, from);
      hide Front;
    }
    hide Leading;
  }

  lemma {:induction false} KeptNonempty<A>(xs: seq<A>, marks: seq<bool>, k: nat, from: Entry)
    requires |xs| == |marks| && Leading(marks) < k <= |xs|
    ensures KeptUpTo(xs, marks, k, from) != []
  {
    if k > Leading(marks) + 1 {
      KeptNonempty(xs, marks, k - 1, from);
    }
  }

  lemma KeptUpToLeading<A>(xs: seq<A>, marks: seq<bool>, from: Entry)
    requires |xs| == |marks|
    ensures var n := Leading(marks);
            Kept(xs, marks, from) == KeptUpTo(xs, marks, n, from) + Without(xs[n..], marks[n..])
  {
    KeptUpToRun(xs, marks, Leading(marks), from);
    hide KeptUpTo, Without, Leading;
  }

  lemma KeptStep<A>(xs: seq<A>, marks: seq<bool>, k: nat, from: Entry)
    requires |xs| == |marks| && k < |xs|
    ensures KeptUpTo(xs, marks, k + 1, from) ==
            if Stays(marks, k, from) then KeptUpTo(xs, marks, k, from) + [xs[k]] else KeptUpTo(xs, marks, k, from)
    ensures k == 0 ==> KeptUpTo(xs, marks, k, from) == []
    ensures !marks[k] ==> Leading(marks) <= k && Stays(marks, k, from)
  {
  }

  lemma WithoutStep<A>(xs: seq<A>, marks: seq<bool>, k: nat)
    requires |xs| == |marks| && k < |xs|
    ensures Without(xs[k..], marks[k..]) == (if marks[k] then [] else [xs[k]]) + Without(xs[k + 1..], marks[k + 1..])
  {
    assert xs[k..][1..] == xs[k + 1..] && marks[k..][1..] == marks[k + 1..];
  }

  lemma {:induction false} KeptUpToRest<A>(xs: seq<A>, marks: seq<bool>, k: nat, from: Entry)
    requires |xs| == |marks| && Leading(marks) <= k <= |xs|
    ensures Kept(xs, marks, from) == KeptUpTo(xs, marks, k, from) + Without(xs[k..], marks[k..])
    decreases k
  {
    if k == Leading(marks) {
      KeptUpToLeading(xs, marks, from);
    } else {
      KeptUpToRest(xs, marks, k - 1, from);
      WithoutStep(xs, marks, k - 1);
      assert Stays(marks, k - 1, from) == !marks[k - 1];
      var rest := Without(xs[k..], marks[k..]);
      Associative(KeptUpTo(xs, marks, k - 1, from), if marks[k - 1] then [] else [xs[k - 1]], rest);
    }
    hide Without, Kept, Leading, Stays;
  }

  /**
   `previous->next = current->next`. It takes `current` out of the list it is in when `prev` comes
   right before it, and does nothing to the list when `prev` is `current` itself or not in it.
   */
  method Unlink<T>(start: Node?<T>, prev: Node<T>, current: Node<T>,
                   ghost before: seq<Node<T>>, ghost after: seq<Node<T>>)
    requires IsList(start, before + [current] + after)
    requires prev in before ==> prev == before[|before| - 1]
    requires prev !in after
    modifies prev`next
    ensures IsList(start, if prev in before then before + after else before + [current] + after)
    ensures prev.next == current.next == old(current.next)
  {
    ghost var nodes := before + [current] + after;
    assert nodes[|before|] == current;
    if prev in before {
      assert nodes[|before| - 1] == prev;
    }
    prev.next := current.next;
    if prev in before {
      ghost var left := before + after;
      assert forall i :: 0 <= i < |left| ==> left[i] == nodes[if i < |before| then i else i + 1];
      assert nodes[0] == left[0];
      assert IsList(start, left);
    } else {
      forall i | 0 <= i < |nodes|
        ensures nodes[i] == prev ==> prev == current
      {
        assert nodes[i] in before || nodes[i] == current || nodes[i] in after;
      }
    }
  }

  lemma NothingSeen<A>(xs: seq<A>, marks: seq<bool>, from: Entry)
    requires |xs| == |marks|
    ensures KeptUpTo(xs, marks, 0, from) == [] && LastMark(marks[..0]) == -1
    ensures xs == [] ==> Kept(xs, marks, from) == [] && LastMark(marks) == -1
  {
  }

  lemma LastMarkStep(marks: seq<bool>, k: nat)
    requires k < |marks|
    ensures LastMark(marks[..k + 1]) == if marks[k] then k else LastMark(marks[..k])
  {
    assert marks[..k + 1][..k] == marks[..k];
  }

  lemma TailIsList<T>(start: Node<T>, head: Node<T>, rest: seq<Node<T>>)
    requires IsList(start, [head] + rest)
    ensures IsList(head.next, rest) && IsList(head.next, [] + rest)
  {
    var nodes := [head] + rest;
    assert forall i :: 0 <= i < |rest| ==> rest[i] == nodes[i + 1];
    assert nodes[0].next == if rest == [] then null else rest[0];
    assert [] + rest == rest;
  }

  ghost predicate AllMarked(marks: seq<bool>, from: int, to: int)
    requires to <= |marks|
  {
    forall i :: 0 <= from <= i < to ==> marks[i]
  }

  ghost function EntryOf<T>(previous: Node?<T>, nodes: seq<Node<T>>): Entry {
    if previous == null then AtNull else if previous in nodes then AtHead else Outside
  }

  /** Where `prev` stands after `k` nodes; once in the list, it is node `p` and all nodes behind that matched. */
  ghost predicate Stands<T>(prev: Node?<T>, previous: Node?<T>, nodes: seq<Node<T>>, marks: seq<bool>, k: nat, p: nat)
    requires |marks| == |nodes| && k <= |nodes|
  {
    var from := EntryOf(previous, nodes);
    && (k == 0 ==> prev == previous)
    && (0 < k <= Leading(marks) ==> prev == if from.Outside? then previous else nodes[0])
    && (k > Leading(marks) ==> prev == LastOf(KeptUpTo(nodes, marks, k, from)))
    && (k > 0 && !(from.Outside? && k <= Leading(marks)) ==>
          p < k && prev == nodes[p] && AllMarked(marks, p + 1, k))
  }

  /** What is left of the first `k` nodes and all the rest form the list. */
  ghost predicate Reached<T>(start: Node?<T>, prev: Node?<T>, previous: Node?<T>,
                             nodes: seq<Node<T>>, marks: seq<bool>, k: nat, p: nat)
    requires |marks| == |nodes| && k <= |nodes|
    reads nodes, KeptUpTo(nodes, marks, k, EntryOf(previous, nodes))
  {
    && IsList(start, KeptUpTo(nodes, marks, k, EntryOf(previous, nodes)) + nodes[k..])
    && Stands(prev, previous, nodes, marks, k, p)
  }

  /** After a match `prev` stays where it is, unless it was NULL; otherwise it becomes the node looked at. */
  lemma StandsNext<T>(prev: Node?<T>, previous: Node?<T>, nodes: seq<Node<T>>, marks: seq<bool>, k: nat, p: nat)
    requires |marks| == |nodes| && k < |nodes| && Distinct(nodes) && EntryFits(previous, nodes, marks)
    requires Stands(prev, previous, nodes, marks, k, p)
    ensures if marks[k] && prev != null && k > 0 then Stands(prev, previous, nodes, marks, k + 1, p)
            else if marks[k] && prev != null then Stands(prev, previous, nodes, marks, k + 1, 0)
            else Stands(nodes[k], previous, nodes, marks, k + 1, k)
    ensures marks[k] && prev == null ==> k == 0 && !Stays(marks, k, EntryOf(previous, nodes))
  {
    var from := EntryOf(previous, nodes);
    KeptStep(nodes, marks, k, from);
    if k > Leading(marks) {
      KeptNonempty(nodes, marks, k, from);
    }
    hide KeptUpTo, Leading;
  }

  /** At a match, `prev` comes right before the node, or its writing there changes nothing, just as `Stays` says. */
  lemma PrevPlace<T>(prev: Node<T>, previous: Node?<T>, nodes: seq<Node<T>>, marks: seq<bool>, k: nat, p: nat)
    requires |marks| == |nodes| && k < |nodes| && marks[k] && Distinct(nodes)
    requires EntryFits(previous, nodes, marks) && Stands(prev, previous, nodes, marks, k, p)
    ensures var kept := KeptUpTo(nodes, marks, k, EntryOf(previous, nodes));
            && (prev in kept ==> prev == kept[|kept| - 1])
            && (prev in kept <==> !Stays(marks, k, EntryOf(previous, nodes)))
            && prev !in nodes[k + 1..]
  {
    var from := EntryOf(previous, nodes);
    if k < Leading(marks) {
      KeptUpToRun(nodes, marks, k, from);
      hide KeptUpTo, Leading, AllMarked;
    } else {
      KeptNonempty(nodes, marks, k, from);
      hide KeptUpTo, Leading, AllMarked;
    }
  }

  /** A `previous` that is in the list is the head, or else the head does not match and it is overwritten. */
  ghost predicate EntryFits<T>(previous: Node?<T>, nodes: seq<Node<T>>, marks: seq<bool>)
    requires |marks| == |nodes|
  {
    previous in nodes ==> previous == nodes[0] || !marks[0]
  }

  ghost function LastOf<T>(nodes: seq<Node<T>>): Node?<T> {
    if nodes == [] then null else nodes[|nodes| - 1]
  }

  /** The body of the macro's loop, for the node at place `k`. */
  method Visit<T>(start: Node?<T>, prev: Node?<T>, current: Node<T>, freenode: Node?<T>, check: T -> bool,
                  ghost previous: Node?<T>, ghost nodes: seq<Node<T>>, ghost marks: seq<bool>,
                  ghost k: nat, ghost p: nat)
    returns (start': Node?<T>, prev': Node?<T>, freenode': Node?<T>, ghost p': nat)
    requires |marks| == |nodes| && k < |nodes| && current == nodes[k] && marks[k] == check(current.payload)
    requires Distinct(nodes) && EntryFits(previous, nodes, marks)
    requires Reached(start, prev, previous, nodes, marks, k, p)
    modifies (if prev == null then {} else {prev})`next
    ensures Reached(start', prev', previous, nodes, marks, k + 1, p')
    ensures prev != null ==> prev.next == if marks[k] then NodeAfter(nodes, k) else old(prev.next)
    ensures freenode' == if marks[k] then current else freenode
    ensures current.next == NodeAfter(nodes, k)
  {
    hide KeptUpTo, Leading, Stays, Stands, EntryFits, EntryOf;
    start', prev', freenode', p' := start, prev, freenode, p;
    ghost var from := EntryOf(previous, nodes);
    ghost var kept, rest := KeptUpTo(nodes, marks, k, from), nodes[k + 1..];
    KeptStep(nodes, marks, k, from);
    StandsNext(prev, previous, nodes, marks, k, p);
    assert kept + nodes[k..] == kept + [current] + rest;
    assert (kept + [current] + rest)[|kept|] == current;
    if check(current.payload) {
      if prev == null {
        assert kept + [current] + rest == [current] + rest;
        start' := current.next;
        prev', p' := current, k;
        TailIsList(start, current, rest);
      } else {
        PrevPlace(prev, previous, nodes, marks, k, p);
        Unlink(start, prev, current, kept, rest);
        p' := if k > 0 then p else 0;
      }
      freenode' := current;
    } else {
      prev', p' := current, k;
    }
    hide IsList, AllMarked, LastOf;
  }

  lemma ReachedStart<T>(start: Node?<T>, previous: Node?<T>, nodes: seq<Node<T>>, marks: seq<bool>)
    requires IsList(start, nodes) && |marks| == |nodes|
    ensures Reached(start, previous, previous, nodes, marks, 0, 0)
  {
    assert [] + nodes[0..] == nodes;
  }

  lemma ReachedEnd<T>(start: Node?<T>, prev: Node?<T>, previous: Node?<T>,
                      nodes: seq<Node<T>>, marks: seq<bool>, p: nat)
    requires |marks| == |nodes| && Reached(start, prev, previous, nodes, marks, |nodes|, p)
    ensures IsList(start, Kept(nodes, marks, EntryOf(previous, nodes)))
  {
    hide KeptUpTo, Kept;
    KeptUpToRest(nodes, marks, |nodes|, EntryOf(previous, nodes));
    assert nodes[|nodes|..] == [] && marks[|nodes|..] == [];
  }

  /** Which node the macro may write to next. */
  lemma ReachedBefore<T>(start: Node?<T>, prev: Node?<T>, previous: Node?<T>,
                         nodes: seq<Node<T>>, marks: seq<bool>, k: nat, p: nat)
    requires |marks| == |nodes| && k < |nodes|
    requires EntryFits(previous, nodes, marks) && Reached(start, prev, previous, nodes, marks, k, p)
    ensures prev == null || prev == previous || prev in nodes
    ensures previous != null && previous !in nodes && k < Leading(marks) ==> prev == previous
    ensures marks[k] && prev != null && prev in nodes ==>
              prev == nodes[k] || (p < k && prev == nodes[p] && AllMarked(marks, p + 1, k + 1))
    ensures previous != null && previous !in nodes && k >= Leading(marks) && marks[k] ==> prev in nodes
  {
  }

  /** What a `previous` from outside the list points to after `k` nodes. */
  ghost function Behind<T>(nodes: seq<Node<T>>, marks: seq<bool>, k: nat, first: Node?<T>): Node?<T> {
    var m := if k < Leading(marks) then k else Leading(marks);
    if m == 0 then first else NodeAfter(nodes, m - 1)
  }

  lemma BehindNothing<T>(nodes: seq<Node<T>>, marks: seq<bool>, first: Node?<T>)
    ensures Behind(nodes, marks, 0, first) == first
  {
  }

  lemma BehindStep<T>(nodes: seq<Node<T>>, marks: seq<bool>, k: nat, first: Node?<T>)
    requires k < |marks| == |nodes|
    ensures Behind(nodes, marks, k + 1, first) ==
            if k < Leading(marks) then NodeAfter(nodes, k) else Behind(nodes, marks, k, first)
    ensures !marks[k] ==> Leading(marks) <= k
    ensures k < Leading(marks) ==> marks[k]
  {
  }

  /**
   The whole macro. A `previous` from outside the list that meets a match at the head ends up pointing
   behind the matches at the front.
   */
  method Remove<T>(start: Node?<T>, previous: Node?<T>, freenode: Node?<T>, check: T -> bool,
                   ghost nodes: seq<Node<T>>, ghost marks: seq<bool>)
    returns (start': Node?<T>, freenode': Node?<T>)
    requires IsList(start, nodes) && Marks(nodes, check, marks)
    requires previous in nodes ==> previous == nodes[0] || !marks[0]
    modifies (set n | n in nodes)`next, (if previous == null then {} else {previous})`next
    ensures IsList(start', Kept(nodes, marks, EntryOf(previous, nodes)))
    ensures freenode' == NodeAt(nodes, LastMark(marks), freenode)
    ensures forall i {:trigger nodes[i].next} ::
              0 <= i < |nodes| && (i + 1 < |nodes| ==> !marks[i + 1]) ==> nodes[i].next == old(nodes[i].next)
    ensures previous != null && previous !in nodes ==>
              previous.next == Behind(nodes, marks, |nodes|, old(previous.next))
  {
    hide KeptUpTo, LastMark, Kept, Leading, Reached, Behind, EntryOf;
    ghost var first := if previous == null then null else previous.next;
    BehindNothing(nodes, marks, first);
    NothingSeen(nodes, marks, EntryOf(previous, nodes));
    ReachedStart(start, previous, nodes, marks);
    start', freenode' := start, freenode;
    if start == null {
      return;
    }
    assert Distinct(nodes) && EntryFits(previous, nodes, marks);
    var current, prev := start, previous;
    ghost var k, p := 0, 0;
    while current != null
      invariant 0 <= k <= |nodes|
      invariant current == if k < |nodes| then nodes[k] else null
      invariant Reached(start', prev, previous, nodes, marks, k, p)
      invariant forall i {:trigger nodes[i].next} ::
                  0 <= i < |nodes| && (i + 1 < |nodes| ==> !marks[i + 1]) ==> nodes[i].next == old(nodes[i].next)
      invariant previous != null && previous !in nodes ==>
                  previous.next == Behind(nodes, marks, k, first)
      invariant freenode' == NodeAt(nodes, LastMark(marks[..k]), freenode)
      decreases |nodes| - k
    {
      LastMarkStep(marks, k);
      BehindStep(nodes, marks, k, first);
      ReachedBefore(start', prev, previous, nodes, marks, k, p);
      hide IsList, Distinct, NodeAt, EntryFits;
      start', prev, freenode', p := Visit(start', prev, current, freenode', check, previous, nodes, marks, k, p);
      current := current.next;
      k := k + 1;
    }
    ReachedEnd(start', prev, previous, nodes, marks, p);
    assert marks[..k] == marks;
  }
}
