/** The ring of the log queue, and the queue with its blocking and its overrunning way to add. */
module CircularQueue {

  /** The queue after adding at the end: with no room left the oldest item gives way. */
  function Pushed<T>(items: seq<T>, capacity: nat, item: T): (r: seq<T>)
    requires |items| <= capacity
    ensures |r| <= capacity
  {
    if |items| == capacity then (items + [item])[1..] else items + [item]
  }

  /** The slots from `head` on, around the end of the vector, up to but not including `tail`. */
  function Segment<T>(v: seq<T>, head: nat, tail: nat): (r: seq<T>)
    requires head < |v| && tail < |v|
    ensures |r| == if head <= tail then tail - head else tail + |v| - head
  {
    if head <= tail then v[head..tail] else v[head..] + v[..tail]
  }

  function After(i: nat, n: nat): nat {
    if i + 1 == n then 0 else i + 1
  }

  lemma SegmentGrows<T>(v: seq<T>, head: nat, tail: nat, item: T)
    requires head < |v| && tail < |v| && After(tail, |v|) != head
    ensures Segment(v[tail := item], head, After(tail, |v|)) == Segment(v, head, tail) + [item]
  {
  }

  lemma SegmentShrinks<T>(v: seq<T>, head: nat, tail: nat)
    requires head < |v| && tail < |v| && head != tail
    ensures [v[head]] + Segment(v, After(head, |v|), tail) == Segment(v, head, tail)
  {
    if head < tail {
      assert v[head..tail] == [v[head]] + v[head + 1..tail];
    } else {
      assert v[head..] == [v[head]] + v[head + 1..];
      if head + 1 == |v| {
        assert v[head + 1..] == [] && v[0..tail] == v[..tail];
      } else {
        assert ([v[head]] + v[head + 1..]) + v[..tail] == [v[head]] + (v[head + 1..] + v[..tail]);
      }
    }
  }

  lemma Rotate<T>(h: T, rest: seq<T>, front: seq<T>, item: T)
    ensures ([h] + rest + front + [item])[1..] == rest + (front + [item])
  {
  }

  lemma SegmentWraps<T>(v: seq<T>, head: nat, tail: nat, item: T)
    requires tail + 1 == head < |v|
    ensures Segment(v, head, tail) == [v[head]] + v[head + 1..] + v[..tail]
    ensures Segment(v[tail := item], After(head, |v|), head) == v[head + 1..] + (v[..tail] + [item])
  {
    var w := v[tail := item];
    assert w[..head] == v[..tail] + [item] && w[head + 1..] == v[head + 1..];
    assert v[head..] == [v[head]] + v[head + 1..];
    if head + 1 == |v| {
      assert w[0..head] == w[..head] && v[head + 1..] == [];
    }
  }

  lemma SegmentTurnsAtEnd<T>(v: seq<T>, tail: nat, item: T)
    requires tail + 1 == |v|
    ensures Segment(v[tail := item], After(0, |v|), 0) == (Segment(v, 0, tail) + [item])[1..]
  {
    var w := v[tail := item];
    assert w == v[0..tail] + [item];
    if tail > 0 {
      assert Segment(w, 1, 0) == w[1..];
    }
  }

  /** Writing the last free slot makes the oldest item's slot the free one. */
  lemma SegmentTurns<T>(v: seq<T>, head: nat, tail: nat, item: T)
    requires head < |v| && tail < |v| && After(tail, |v|) == head
    ensures Segment(v[tail := item], After(head, |v|), head) == (Segment(v, head, tail) + [item])[1..]
  {
    if tail + 1 == |v| {
      SegmentTurnsAtEnd(v, tail, item);
    } else {
      SegmentWraps(v, head, tail, item);
      Rotate(v[head], v[head + 1..], v[..tail], item);
    }
  }

  lemma WithinModulus(i: nat, n: nat)
    requires i < n
    ensures i % n == i
  {
  }

  class CircularQ<T(0)> {
    const maxItems: nat
    const v: array<T>
    var head: nat
    var tail: nat
    var overrunCounter: nat

    ghost predicate Valid()
      reads this
    {
      v.Length == maxItems > 0 && head < maxItems && tail < maxItems
    }

    /** One slot is kept free to tell a full ring from an empty one. */
    ghost function Capacity(): nat
      reads this
      requires Valid()
    {
      maxItems - 1
    }

    ghost function Contents(): (r: seq<T>)
      requires Valid()
      reads this, v
      ensures |r| <= Capacity()
    {
      Segment(v[..], head, tail)
    }

    constructor (capacity: nat)
      ensures Valid() && fresh(v) && Capacity() == capacity && Contents() == [] && overrunCounter == 0
    {
      maxItems := capacity + 1;
      v := new T[capacity + 1];
      head, tail, overrunCounter := 0, 0, 0;
    }

    method Advance(i: nat) returns (next: nat)
      requires i < maxItems
      ensures next == After(i, maxItems)
    {
      next := (i + 1) % maxItems;
      if i + 1 < maxItems {
        WithinModulus(i + 1, maxItems);
      }
    }

    method PushBack(item: T)
      requires Valid()
      modifies this, v
      ensures Valid() && Contents() == Pushed(old(Contents()), Capacity(), item)
      ensures overrunCounter == old(overrunCounter) + if |old(Contents())| == Capacity() then 1 else 0
    {
      ghost var was := v[..];
      v[tail] := item;
      assert v[..] == was[tail := item];
      if After(tail, maxItems) == head {
        SegmentTurns(was, head, tail, item);
      } else {
        SegmentGrows(was, head, tail, item);
      }
      tail := Advance(tail);
      if tail == head {
        head := Advance(head);
        overrunCounter := overrunCounter + 1;
      }
    }

    method PopFront() returns (item: T)
      requires Valid() && Contents() != []
      modifies this`head
      ensures Valid() && [item] + Contents() == old(Contents())
    {
      SegmentShrinks(v[..], head, tail);
      item := v[head];
      head := Advance(head);
    }

    predicate Empty()
      requires Valid()
      reads this, v
      ensures Empty() <==> Contents() == []
    {
      tail == head
    }

    method Full() returns (full: bool)
      requires Valid()
      ensures full <==> |Contents()| == Capacity()
    {
      var next := Advance(tail);
      full := next == head;
    }
  }

  /** The queue under its mutex. A call that has to wait is shown by `waits`; it is evaluated anew when woken up. */
  class BlockingQueue<T(0)> {
    const q: CircularQ<T>

    ghost predicate Valid()
      reads this, q
    {
      q.Valid()
    }

    constructor (capacity: nat)
      ensures Valid() && fresh(q) && fresh(q.v) && q.Capacity() == capacity && q.Contents() == []
    {
      q := new CircularQ<T>(capacity);
    }

    method Enqueue(item: T) returns (waits: bool)
      requires Valid()
      modifies q, q.v
      ensures Valid() && (waits <==> |old(q.Contents())| == q.Capacity())
      ensures q.Contents() == old(q.Contents()) + if waits then [] else [item]
      ensures q.overrunCounter == old(q.overrunCounter)
    {
      waits := q.Full();
      if !waits {
        q.PushBack(item);
      }
    }

    method EnqueueNowait(item: T)
      requires Valid()
      modifies q, q.v
      ensures Valid() && q.Contents() == Pushed(old(q.Contents()), q.Capacity(), item)
    {
      q.PushBack(item);
    }

    /** Nothing is taken when the wait ends with the queue still empty. */
    method DequeueFor(timeout: T) returns (dequeued: bool, item: T)
      requires Valid()
      modifies q
      ensures Valid() && (dequeued <==> old(q.Contents()) != [])
      ensures if dequeued then [item] + q.Contents() == old(q.Contents()) else q.Contents() == old(q.Contents())
    {
      if q.Empty() {
        return false, timeout;
      }
      item := q.PopFront();
      return true, item;
    }
  }
}
