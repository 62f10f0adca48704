/**
 The queue object of madt.c, built without threads: a heap array with two wrapping cursors, growth
 by doubling, and compaction in place. Each method is proved against the value-level queue of
 QueueModel, whose items are read off the array by `Contents`.
 */
module MQueue {
  import opened Machine
  import opened QueueModel

  class Queue {
    var data: array<Pointer>
    var front: u64
    var rear: u64
    var maxSize: u64
    var gcRun: u64
    var allocSize: u64

    // Work done so far: slots copied by growth, slots moved by compaction.
    ghost var copied: nat
    ghost var moved: nat

    ghost predicate InBounds()
      reads this
    {
      front + Wrap(rear + 1 - front) <= data.Length
    }

    /** The live slots of the array, oldest item first. */
    ghost function Contents(): seq<Pointer>
      requires InBounds()
      reads this, data
    {
      data[front..front + Wrap(rear + 1 - front)]
    }

    ghost function View(): QueueModel.Queue
      requires InBounds()
      reads this, data
    {
      QueueModel.Queue(front, rear, maxSize, gcRun, allocSize, Contents())
    }

    ghost predicate Valid()
      reads this, data
    {
      && data.Length == allocSize
      && InBounds()
      && Inv(View())
    }

    constructor (initialSize: u64, maxSize: u64)
      requires 8 * StartSize(initialSize) < TWO_64
      ensures Valid() && fresh(data)
      ensures View() == Init(initialSize, maxSize)
      ensures copied == 0 && moved == 0
    {
      var size: u64 := initialSize;
      if size < 1 {
        size := 1;
      }
      front := 0;
      rear := TWO_64 - 1;
      allocSize := size;
      this.maxSize := maxSize;
      gcRun := GC_COUNT;
      data := new Pointer[size];
      copied, moved := 0, 0;
    }

    method Size() returns (size: u64)
      requires Valid()
      ensures size == |Contents()| == SizeOf(View())
    {
      size := Wrap(rear + 1 - front);
    }

    /** `realloc` to twice the size: the old slots keep their values, the new ones hold anything. */
    method Grow()
      requires data.Length == allocSize && 16 * allocSize < TWO_64
      modifies this`data, this`allocSize, this`copied
      ensures fresh(data) && data.Length == allocSize == 2 * old(allocSize)
      ensures data[..old(allocSize)] == old(data[..])
      ensures copied == old(copied) + old(allocSize)
    {
      var bigger := new Pointer[2 * allocSize];
      var i := 0;
      while i < allocSize
        invariant 0 <= i <= allocSize
        invariant data == old(data) && allocSize == old(allocSize) && data[..] == old(data[..])
        invariant forall k :: 0 <= k < i ==> bigger[k] == data[k]
        invariant copied == old(copied) + i
      {
        bigger[i] := data[i];
        copied := copied + 1;
        i := i + 1;
      }
      assert bigger[..allocSize] == data[..];
      data := bigger;
      allocSize := Wrap(allocSize * 2);
    }

    /** Makes room for a slot at `rear`, if it is just past the end of the array. */
    method Reserve()
      requires data.Length == allocSize && 16 * allocSize < TWO_64
      modifies this`data, this`allocSize, this`copied
      ensures data.Length == allocSize >= old(allocSize)
      ensures data[..old(allocSize)] == old(data[..])
      ensures if rear == old(allocSize)
              then fresh(data) && allocSize == 2 * old(allocSize) && copied == old(copied) + old(allocSize)
              else data == old(data) && allocSize == old(allocSize) && copied == old(copied)
    {
      if rear == allocSize {
        Grow();
      }
    }

    /** Writes the slot at `rear`, just behind the live ones, growing the array first if it ends there. */
    method Place(item: Pointer, ghost items: seq<Pointer>)
      requires data.Length == allocSize > 0 && 16 * allocSize < TWO_64
      requires front + |items| == rear <= allocSize && data[front..rear] == items
      modifies this`data, this`allocSize, this`copied, data
      ensures data.Length == allocSize > rear && data[front..rear + 1] == items + [item]
      ensures if rear == old(allocSize)
              then fresh(data) && allocSize == 2 * old(allocSize) && copied == old(copied) + old(allocSize)
              else data == old(data) && allocSize == old(allocSize) && copied == old(copied)
    {
      Reserve();
      assert data[front..rear] == items;
      data[rear] := item;
      assert data[front..rear + 1] == data[front..rear] + [item];
    }

    /** The part of an enqueue after the wait for room: advance `rear`, grow if needed, store. */
    method Store(item: Pointer)
      requires Valid() && !Full(View())
      requires 16 * allocSize < TWO_64
      modifies this`rear, this`data, this`allocSize, this`copied, data
      ensures Valid() && (data == old(data) || fresh(data))
      ensures View() == Push(old(View()), item)
      ensures copied == old(copied) + (if old(Grows(View())) then old(allocSize) else 0)
    {
      ghost var before := View();
      ghost var n := |before.items|;
      PushFields(before, item);
      WrapInside(n);
      WrapInside(n + 1);
      hide Inv, Wrap, Push, Grows, Full;
      assert data[front..front + n] == before.items;
      rear := Wrap(rear + 1);
      Place(item, before.items);
      assert rear + 1 - front == n + 1;
      assert View() == Push(before, item);
    }

    /** A full bounded queue answers 2^64 - 1 and is left alone; otherwise the item goes to the end. */
    method Enqueue(item: Pointer) returns (size: u64)
      requires Valid()
      requires 16 * allocSize < TWO_64
      modifies this, data
      ensures Valid() && (data == old(data) || fresh(data))
      ensures old(Full(View())) ==>
                size == 0xffff_ffff_ffff_ffff && View() == old(View()) && copied == old(copied)
      ensures !old(Full(View())) ==>
                && size == old(|Contents()|) + 1
                && View() == Push(old(View()), item)
                && copied == old(copied) + (if old(Grows(View())) then old(allocSize) else 0)
      ensures moved == old(moved)
    {
      hide Inv, Push, Grows, SizeOf;
      if maxSize > 0 {
        var held := Size();
        if held == maxSize {
          return Wrap(-1);
        }
      }
      StoredLength(View(), item);
      Store(item);
      size := Size();
    }

    /** Reads the oldest slot and moves `front` past it. */
    method Fetch() returns (item: Pointer)
      requires Valid() && Contents() != []
      modifies this`front, this`gcRun
      ensures InBounds() && item == old(Contents())[0]
      ensures View() == Advance(old(View())) && gcRun == old(gcRun) - 1
      ensures front + |Contents()| < TWO_64 && rear == Wrap(front + |Contents()| - 1)
    {
      ghost var before := View();
      AdvanceFields(before);
      hide Inv, Wrap, Advance;
      item := data[front];
      front := Wrap(front + 1);
      gcRun := Wrap(gcRun - 1);
      assert Contents() == before.items[1..];
    }

    /** The part of a dequeue after the wait for an item: take the oldest one, and compact when due. */
    method Take() returns (item: Pointer)
      requires Valid() && Contents() != []
      modifies this`front, this`rear, this`gcRun, this`moved, data
      ensures Valid()
      ensures item == old(Contents())[0]
      ensures View() == Pop(old(View()))
      ensures moved == old(moved) + (if old(gcRun) == 1 then old(|Contents()|) - 1 else 0)
    {
      PopInv(View());
      hide Inv, Wrap, Vacuum, Advance, Contents;
      ghost var before := View();
      item := Fetch();
      if gcRun == 0 {
        Compact();
        gcRun := GC_COUNT;
      }
      assert View() == Pop(before);
    }

    /** An empty queue answers NULL and is left alone; otherwise the oldest item is taken. */
    method Dequeue() returns (item: Pointer)
      requires Valid()
      modifies this, data
      ensures Valid() && data == old(data)
      ensures old(Contents()) == [] ==> item == 0 && View() == old(View()) && moved == old(moved)
      ensures old(Contents()) != [] ==>
                && item == old(Contents())[0]
                && View() == Pop(old(View()))
                && moved == old(moved) + (if old(gcRun) == 1 then old(|Contents()|) - 1 else 0)
      ensures copied == old(copied)
    {
      var held := Size();
      if held == 0 {
        return NULL;
      }
      item := Take();
    }

    /** `mqueue_vacuum`: slide the live slots down to the start of the array. */
    method Compact()
      requires data.Length == allocSize && InBounds()
      requires front + |Contents()| < TWO_64 && rear == Wrap(front + |Contents()| - 1)
      modifies this`front, this`rear, this`moved, data
      ensures data == old(data) && InBounds()
      ensures View() == Vacuum(old(View()))
      ensures moved == old(moved) + (if old(front) == 0 then 0 else old(|Contents()|))
    {
      if front == 0 {
        return;
      }
      var size := Wrap(rear + 1 - front);
      MoveDown(size);
      rear := Wrap(rear - front);
      front := 0;
    }

    /** `memmove` of `n` slots from `front` to the start; the two ranges may overlap. */
    method MoveDown(n: nat)
      requires 0 < front && front + n <= data.Length
      modifies data, this`moved
      ensures data[..n] == old(data[front..front + n])
      ensures moved == old(moved) + n
    {
      var i := 0;
      while i < n
        invariant 0 <= i <= n
        invariant forall k :: 0 <= k < i ==> data[k] == old(data[front + k])
        invariant forall k :: i + front <= k < data.Length ==> data[k] == old(data[k])
        invariant moved == old(moved) + i
      {
        data[i] := data[front + i];
        moved := moved + 1;
        i := i + 1;
      }
    }

    /** The public entry point, which callers may use at any time between operations. */
    method VacuumNow()
      requires Valid()
      modifies this, data
      ensures Valid() && data == old(data)
      ensures View() == Vacuum(old(View())) && Contents() == old(Contents()) && front == 0
      ensures moved == old(moved) + (if old(front) == 0 then 0 else old(|Contents()|))
      ensures copied == old(copied)
    {
      VacuumInv(View());
      Compact();
    }
  }
}
