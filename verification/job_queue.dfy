/** The `tsque` deque of include/lith/job.h, with the mutex removed: one worker owns it, and
    a pop that would block on an empty queue is a precondition instead. */
module JobQueue {

  /** A double-ended queue; `items[0]` is the front and `items[|items|-1]` the back. */
  class TsQueue<T> {
    var items: seq<T>
    /** The value-initialised `_t{}` that the peeks return on an empty queue. */
    const zero: T

    constructor (zero: T)
      ensures items == [] && this.zero == zero
    {
      items := [];
      this.zero := zero;
    }

    method Clear()
      modifies this
      ensures items == []
    {
      items := [];
    }

    method PushBack(t: T)
      modifies this
      ensures items == old(items) + [t]
    {
      items := items + [t];
    }

    method PushFront(t: T)
      modifies this
      ensures items == [t] + old(items)
    {
      items := [t] + items;
    }

    /** Removes and returns the back element; the source waits until the queue is non-empty. */
    method PopBack() returns (out: T)
      requires items != []
      modifies this
      ensures out == old(items)[|old(items)| - 1]
      ensures items == old(items)[..|old(items)| - 1]
      ensures |items| == |old(items)| - 1
    {
      out := items[|items| - 1];
      items := items[..|items| - 1];
    }

    /** Removes and returns the front element; the source waits until the queue is non-empty. */
    method PopFront() returns (out: T)
      requires items != []
      modifies this
      ensures out == old(items)[0]
      ensures items == old(items)[1..]
      ensures |items| == |old(items)| - 1
    {
      out := items[0];
      items := items[1..];
    }

    /** The back element, or `zero` when the queue is empty; the queue is left as it was. */
    method PeekBack() returns (out: T)
      ensures items == [] ==> out == zero
      ensures items != [] ==> out == items[|items| - 1]
    {
      if |items| == 0 {
        return zero;
      }
      out := items[|items| - 1];
    }

    /** The front element, or `zero` when the queue is empty; the queue is left as it was. */
    method PeekFront() returns (out: T)
      ensures items == [] ==> out == zero
      ensures items != [] ==> out == items[0]
    {
      if |items| == 0 {
        return zero;
      }
      out := items[0];
    }

    /** Erasing at or past the end of a `std::deque` is undefined, hence the precondition. */
    method Erase(index: nat)
      requires index < |items|
      modifies this
      ensures items == old(items)[..index] + old(items)[index + 1..]
      ensures |items| == |old(items)| - 1
    {
      items := items[..index] + items[index + 1..];
    }

    method Size() returns (n: nat)
      ensures n == |items|
    {
      n := |items|;
    }

    method Empty() returns (b: bool)
      ensures b <==> items == []
    {
      b := |items| == 0;
    }
  }

  // ---------------------------------------------------------------------------------------
  // The executor's usage: `push_front` to enqueue, `pop_back` to dequeue.

  datatype QueueOp<T> = PushFrontOp(x: T) | PopBackOp

  function Reverse<T>(s: seq<T>): (r: seq<T>)
    ensures |r| == |s|
  {
    if s == [] then [] else Reverse(s[1..]) + [s[0]]
  }

  lemma {:induction false} ReverseAppend<T>(a: seq<T>, b: seq<T>)
    ensures Reverse(a + b) == Reverse(b) + Reverse(a)
    decreases |a|
  {
    if a == [] {
      assert a + b == b;
    } else {
      assert (a + b)[1..] == a[1..] + b;
      ReverseAppend(a[1..], b);
    }
  }

  lemma {:induction false} ReverseIndex<T>(s: seq<T>)
    ensures forall k :: 0 <= k < |s| ==> Reverse(s)[k] == s[|s| - 1 - k]
    ensures forall x :: x in Reverse(s) <==> x in s
    decreases |s|
  {
    if s != [] {
      ReverseIndex(s[1..]);
      assert forall x :: x in s <==> x == s[0] || x in s[1..];
    }
  }

  /** Whether every `PopBackOp` of `ops`, replayed from queue `q`, finds a non-empty queue. */
  predicate Runnable<T>(q: seq<T>, ops: seq<QueueOp<T>>)
    decreases |ops|
  {
    ops == [] ||
    match ops[0]
    case PushFrontOp(x) => Runnable([x] + q, ops[1..])
    case PopBackOp => q != [] && Runnable(q[..|q| - 1], ops[1..])
  }

  /** The final queue and the popped values, in pop order, after replaying `ops` from `q`
      with the steps of `TsQueue.PushFront` and `TsQueue.PopBack`. */
  function Replay<T>(q: seq<T>, ops: seq<QueueOp<T>>): (r: (seq<T>, seq<T>))
    requires Runnable(q, ops)
    decreases |ops|
  {
    if ops == [] then (q, [])
    else match ops[0]
      case PushFrontOp(x) => Replay([x] + q, ops[1..])
      case PopBackOp =>
        var rest := Replay(q[..|q| - 1], ops[1..]);
        (rest.0, [q[|q| - 1]] + rest.1)
  }

  /** The values pushed by `ops`, in push order. */
  function Pushed<T>(ops: seq<QueueOp<T>>): seq<T>
  {
    if ops == [] then []
    else match ops[0]
      case PushFrontOp(x) => [x] + Pushed(ops[1..])
      case PopBackOp => Pushed(ops[1..])
  }

  /** FIFO: what was in the queue (back first) followed by everything pushed equals what was
      popped followed by what is left (back first). */
  lemma {:induction false} ReplayIsFifo<T>(q: seq<T>, ops: seq<QueueOp<T>>)
    requires Runnable(q, ops)
    ensures Reverse(q) + Pushed(ops) == Replay(q, ops).1 + Reverse(Replay(q, ops).0)
    decreases |ops|
  {
    if ops == [] {
    } else {
      match ops[0]
      case PushFrontOp(x) =>
        ReplayIsFifo([x] + q, ops[1..]);
        var r := Replay([x] + q, ops[1..]);
        PushFrontStep(x, q, Pushed(ops[1..]), r.1, r.0);
      case PopBackOp =>
        ReplayIsFifo(q[..|q| - 1], ops[1..]);
        var r := Replay(q[..|q| - 1], ops[1..]);
        PopBackStep(q[..|q| - 1], q[|q| - 1], Pushed(ops[1..]), r.1, r.0);
        SplitLast(q);
    }
  }

  /** A push at the front joins the pushed values after the queue's back-first contents. */
  lemma PushFrontStep<T>(x: T, q: seq<T>, pushed: seq<T>, popped: seq<T>, left: seq<T>)
    requires Reverse([x] + q) + pushed == popped + Reverse(left)
    ensures Reverse(q) + ([x] + pushed) == popped + Reverse(left)
  {
    ReverseAppend([x], q);
    ReverseOne(x);
    assert Reverse(q) + [x] + pushed == Reverse(q) + ([x] + pushed);
  }

  /** A pop at the back takes the first of the queue's back-first contents. */
  lemma PopBackStep<T>(rest: seq<T>, last: T, pushed: seq<T>, popped: seq<T>, left: seq<T>)
    requires Reverse(rest) + pushed == popped + Reverse(left)
    ensures Reverse(rest + [last]) + pushed == ([last] + popped) + Reverse(left)
  {
    ReverseAppend(rest, [last]);
    ReverseOne(last);
    assert Reverse(rest + [last]) + pushed == [last] + (Reverse(rest) + pushed);
  }

  lemma SplitLast<T>(q: seq<T>)
    requires q != []
    ensures q == q[..|q| - 1] + [q[|q| - 1]]
  {
  }

  lemma ReverseOne<T>(x: T)
    ensures Reverse([x]) == [x]
  {
    assert [x][1..] == [];
  }

  /** Starting from an empty queue, the values come out in exactly the order they went in. */
  lemma FifoFromEmpty<T>(ops: seq<QueueOp<T>>)
    requires Runnable([], ops)
    ensures Replay([], ops).1 <= Pushed(ops)
    ensures Pushed(ops) == Replay([], ops).1 + Reverse(Replay([], ops).0)
  {
    ReplayIsFifo([], ops);
    var r := Replay([], ops);
    assert Reverse<T>([]) == [];
    assert [] + Pushed(ops) == Pushed(ops);
    assert Pushed(ops)[..|r.1|] == r.1;
  }
}
