// The double-length ring that buffers raw kernel input events
// (hardware/libsensor/InputEventReader.cpp), proved to be a FIFO queue.
module InputEventReader {

  const EINVAL: int := 22

  // What one read(2) on the event device did: it failed, it left whole events
  // followed by a torn one, or it returned whole events only.
  datatype KernelRead<T> =
    | ReadError(errno: int)
    | PartialRead(whole: seq<T>, torn: T)
    | WholeRead(events: seq<T>)
  {
    // What the kernel stored at the destination pointer.
    function Landed(): seq<T> {
      match this
      case ReadError(_) => []
      case PartialRead(whole, torn) => whole + [torn]
      case WholeRead(events) => events
    }

    // The events the reader accepts.
    function Accepted(): seq<T> {
      if WholeRead? then events else []
    }

    // read(2) never returns more than it was asked for.
    predicate Legal(room: nat) {
      |Landed()| <= room && (ReadError? ==> errno > 0)
    }
  }

  // Where the i-th unread event lives in a ring of n slots whose oldest is at `curr`.
  function Slot(n: nat, curr: nat, i: nat): nat
    requires curr <= n && i <= n
  {
    if curr + i < n then curr + i else curr + i - n
  }

  // The `len` events of the ring that starts at `curr`, in order.
  ghost function View<T>(image: seq<T>, n: nat, curr: nat, len: nat): (s: seq<T>)
    requires n <= |image| && len <= n && (curr < n || len == 0) && curr <= n
    ensures |s| == len && forall i :: 0 <= i < len ==> s[i] == image[Slot(n, curr, i)]
  {
    seq(len, i requires 0 <= i < len => image[Slot(n, curr, i)])
  }

  // What publishing does to the view: of the events that landed at `head`, those past the
  // end of the lower half have been copied to its start.
  lemma Published<T>(image: seq<T>, image': seq<T>, n: nat, head: nat, curr: nat, len: nat, events: seq<T>)
    requires |image| == |image'| == 2 * n && head <= n && len + |events| <= n
    requires curr < n || (len == 0 && curr == n && events == [])
    requires head == curr + len || head + n == curr + len || head == curr + len + n
    requires image[head..head + |events|] == events
    requires forall i :: 0 <= i < head + |events| - n ==> image'[i] == image[n + i]
    requires forall i :: 0 <= i < 2 * n && head + |events| - n <= i ==> image'[i] == image[i]
    ensures View(image', n, curr, len + |events|) == View(image, n, curr, len) + events
  {
    forall i | 0 <= i < len + |events|
      ensures View(image', n, curr, len + |events|)[i] == (View(image, n, curr, len) + events)[i]
    {
      var slot := Slot(n, curr, i);
      if i >= len {
        assert events[i - len] == image[head + (i - len)];
        assert image'[slot] == image[head + (i - len)];
      } else {
        assert image'[slot] == image[slot];
      }
    }
  }

  class InputEventCircularReader<T(0)> {
    const numEvents: nat
    const mBuffer: array<T>   // 2 * numEvents slots; the upper half is landing space
    var mHead: nat
    var mCurr: nat
    var mFreeSpace: nat

    ghost predicate Valid()
      reads this
    {
      && mBuffer.Length == 2 * numEvents
      && mFreeSpace <= numEvents
      && mHead <= numEvents
      && (if numEvents == 0 then mCurr == 0 else mCurr < numEvents)
      && var tail := mCurr + (numEvents - mFreeSpace);
         (mHead == tail || mHead + numEvents == tail || mHead == tail + numEvents)
    }

    // The abstract queue: the unread events, oldest first.
    ghost function Unread(): (s: seq<T>)
      requires Valid()
      reads this, mBuffer
      ensures |s| + mFreeSpace == numEvents
    {
      View(mBuffer[..], numEvents, mCurr, numEvents - mFreeSpace)
    }

    constructor (numEvents: nat)
      ensures Valid() && fresh(mBuffer)
      ensures this.numEvents == numEvents && Unread() == []
    {
      this.numEvents := numEvents;
      mBuffer := new T[2 * numEvents];
      mHead, mCurr, mFreeSpace := 0, 0, numEvents;
    }

    // `outcome` is what read(2) does if it is called; it is called only when there is room.
    method Fill(outcome: KernelRead<T>) returns (r: int)
      requires Valid()
      requires outcome.Legal(mFreeSpace) || mFreeSpace == 0
      modifies this, mBuffer
      ensures Valid()
      ensures old(mFreeSpace) == 0 ==> r == 0 && Unread() == old(Unread())
      ensures old(mFreeSpace) > 0 ==> Unread() == old(Unread()) + outcome.Accepted()
      ensures old(mFreeSpace) > 0 ==> r == match outcome
                                           case ReadError(errno) => -errno
                                           case PartialRead(_, _) => -EINVAL
                                           case WholeRead(events) => |events|
    {
      r := 0;
      if mFreeSpace != 0 {
        Land(outcome.Landed());
        match outcome {
          case ReadError(errno) => r := -errno;
          case PartialRead(_, _) => r := -EINVAL;
          case WholeRead(events) =>
            r := |events|;
            if r != 0 {
              Advance(events);
            }
        }
      }
    }

    // The kernel's store at mHead: it touches only free slots and landing space.
    method Land(landed: seq<T>)
      requires Valid() && |landed| <= mFreeSpace
      modifies mBuffer
      ensures Valid() && Unread() == old(Unread())
      ensures mBuffer[mHead..mHead + |landed|] == landed
    {
      ghost var image := mBuffer[..];
      forall i | 0 <= i < |landed| {
        mBuffer[mHead + i] := landed[i];
      }
      forall i | 0 <= i < numEvents - mFreeSpace
        ensures mBuffer[Slot(numEvents, mCurr, i)] == image[Slot(numEvents, mCurr, i)]
      {
        var slot := Slot(numEvents, mCurr, i);
        assert slot < mHead || mHead + mFreeSpace <= slot;
      }
    }

    // Publishes the events that landed at mHead; those past the end of the lower half
    // are copied to its start.
    method Advance(events: seq<T>)
      requires Valid() && |events| <= mFreeSpace
      requires mBuffer[mHead..mHead + |events|] == events
      modifies this, mBuffer
      ensures Valid() && Unread() == old(Unread()) + events
    {
      ghost var image := mBuffer[..];
      assert image[mHead..mHead + |events|] == events;
      mHead := mHead + |events|;
      mFreeSpace := mFreeSpace - |events|;
      if mHead > numEvents {
        var s := mHead - numEvents;
        forall i | 0 <= i < s {
          mBuffer[i] := mBuffer[numEvents + i];
        }
        mHead := s;
      }
      Published(image, mBuffer[..], numEvents, old(mHead), mCurr, numEvents - old(mFreeSpace), events);
    }

    // Peeks at the oldest unread event.
    method ReadEvent() returns (available: bool, event: T)
      requires Valid()
      requires numEvents > 0
      ensures available == (Unread() != [])
      ensures available ==> event == Unread()[0]
    {
      event := mBuffer[mCurr];
      available := numEvents - mFreeSpace != 0;
    }

    method Next()
      requires Valid()
      requires Unread() != []
      modifies this
      ensures Valid() && Unread() == old(Unread())[1..]
    {
      mCurr := mCurr + 1;
      mFreeSpace := mFreeSpace + 1;
      if mCurr >= numEvents {
        mCurr := 0;
      }
    }
  }

  // A client action: fill from the device, or consume one event if there is one.
  datatype Action<T> = DoFill(outcome: KernelRead<T>) | DoNext

  // The same actions on an unbounded queue; `taken` is what has been consumed so far.
  datatype Queue<T> = Queue(taken: seq<T>, unread: seq<T>)

  function QueueStep<T>(q: Queue<T>, a: Action<T>, capacity: nat): Queue<T> {
    match a
    case DoFill(outcome) => if |q.unread| >= capacity then q else q.(unread := q.unread + outcome.Accepted())
    case DoNext => if q.unread == [] then q else Queue(q.taken + [q.unread[0]], q.unread[1..])
  }

  function QueueRun<T>(q: Queue<T>, script: seq<Action<T>>, capacity: nat): Queue<T> {
    if script == [] then q
    else QueueStep(QueueRun(q, script[..|script| - 1], capacity), script[|script| - 1], capacity)
  }

  // Every read in the script keeps to the room the reader offers at that point.
  ghost predicate LegalScript<T>(script: seq<Action<T>>, capacity: nat) {
    forall i :: 0 <= i < |script| && script[i].DoFill? ==>
      var q := QueueRun(Queue([], []), script[..i], capacity);
      |q.unread| < capacity ==> script[i].outcome.Legal(capacity - |q.unread|)
  }

  // Drives the ring through an arbitrary run of fills and guarded nexts: what it hands
  // out, and what it still holds, is what the unbounded queue hands out and holds.
  method RingRefinesQueue<T(0)>(numEvents: nat, script: seq<Action<T>>)
    returns (taken: seq<T>, left: nat, ghost held: seq<T>)
    requires numEvents > 0 && LegalScript(script, numEvents)
    ensures var q := QueueRun(Queue([], []), script, numEvents);
            taken == q.taken && left == |q.unread| <= numEvents
    ensures held == QueueRun(Queue([], []), script, numEvents).unread
  {
    var ring := new InputEventCircularReader<T>(numEvents);
    taken := [];
    ghost var q := Queue([], []);
    for i := 0 to |script|
      invariant ring.Valid() && fresh(ring) && fresh(ring.mBuffer) && ring.numEvents == numEvents
      invariant q == QueueRun(Queue([], []), script[..i], numEvents)
      invariant taken == q.taken && ring.Unread() == q.unread
    {
      assert script[..i + 1][..i] == script[..i];
      match script[i] {
        case DoFill(outcome) =>
          var _ := ring.Fill(outcome);
        case DoNext =>
          var available, event := ring.ReadEvent();
          if available {
            taken := taken + [event];
            ring.Next();
          }
      }
      q := QueueStep(q, script[i], numEvents);
    }
    assert script[..|script|] == script;
    left, held := numEvents - ring.mFreeSpace, ring.Unread();
  }

  // The events one action adds to the queue.
  function Gained<T>(q: Queue<T>, a: Action<T>, capacity: nat): seq<T> {
    if a.DoFill? && |q.unread| < capacity then a.outcome.Accepted() else []
  }

  // All events accepted by the fills of a run, in order.
  function Filled<T>(script: seq<Action<T>>, capacity: nat): seq<T> {
    if script == [] then []
    else
      var before := script[..|script| - 1];
      Filled(before, capacity) + Gained(QueueRun(Queue([], []), before, capacity), script[|script| - 1], capacity)
  }

  lemma StepIsFifo<T>(q: Queue<T>, a: Action<T>, capacity: nat)
    ensures var q' := QueueStep(q, a, capacity);
            q'.taken + q'.unread == (q.taken + q.unread) + Gained(q, a, capacity)
  {
    hide KernelRead.Accepted;
    if a.DoNext? && q.unread != [] {
      assert q.unread == [q.unread[0]] + q.unread[1..];
      assert q.taken + ([q.unread[0]] + q.unread[1..]) == (q.taken + [q.unread[0]]) + q.unread[1..];
    }
  }

  // FIFO, nothing lost, nothing invented: consumed events followed by unread ones are
  // exactly the accepted events in arrival order.
  lemma {:induction false} QueueIsFifo<T>(script: seq<Action<T>>, capacity: nat)
    ensures var q := QueueRun(Queue([], []), script, capacity);
            q.taken + q.unread == Filled(script, capacity)
  {
    hide QueueStep, Gained;
    if script != [] {
      var before := script[..|script| - 1];
      QueueIsFifo(before, capacity);
      StepIsFifo(QueueRun(Queue([], []), before, capacity), script[|script| - 1], capacity);
    }
  }
}
