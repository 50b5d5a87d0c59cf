// Assembly of raw kernel input events into accelerometer events
// (hardware/libsensor/AccelerationSensor.cpp), on top of the ring reader.
module AccelerationSensor {
  import opened InputEventReader

  const EV_SYN: int := 0
  const EV_ABS: int := 3
  const ABS_X: int := 0
  const ABS_Y: int := 1
  const ABS_Z: int := 2

  datatype RawEvent = RawEvent(kind: int, code: int, value: int, sec: int, usec: int)

  datatype SensorEvent = SensorEvent(sensor: int, timestamp: int, x: real, y: real, z: real)

  function TimevalToNano(sec: int, usec: int): int {
    sec * 1000000000 + usec * 1000
  }

  // Nanoseconds from time zero on: each second adds 10^9 of them.
  lemma NanosPerSecond(sec: int, usec: int)
    ensures TimevalToNano(sec + 1, usec) == TimevalToNano(sec, usec) + 1_000_000_000
  {
  }

  // Each microsecond adds 1000.
  lemma NanosPerMicrosecond(sec: int, usec: int)
    ensures TimevalToNano(sec, usec + 1) == TimevalToNano(sec, usec) + 1_000
  {
  }

  lemma NanosFromZero()
    ensures TimevalToNano(0, 0) == 0
  {
  }

  // The pending event after one raw event.
  function Absorb(p: SensorEvent, e: RawEvent, resolution: real): SensorEvent {
    if e.kind == EV_ABS then
      var v := e.value as real * resolution;
      if e.code == ABS_X then p.(x := v)
      else if e.code == ABS_Y then p.(y := v)
      else if e.code == ABS_Z then p.(z := v)
      else p
    else if e.kind == EV_SYN then p.(timestamp := TimevalToNano(e.sec, e.usec))
    else p
  }

  // The pending event after a whole raw stream.
  function PendingAfter(p: SensorEvent, raw: seq<RawEvent>, resolution: real): SensorEvent
    decreases |raw|
  {
    if raw == [] then p else PendingAfter(Absorb(p, raw[0], resolution), raw[1..], resolution)
  }

  // The sensor events a raw stream stands for: the pending event at every EV_SYN.
  function Assemble(p: SensorEvent, raw: seq<RawEvent>, resolution: real): seq<SensorEvent>
    decreases |raw|
  {
    if raw == [] then []
    else
      var p' := Absorb(p, raw[0], resolution);
      (if raw[0].kind == EV_SYN then [p'] else []) + Assemble(p', raw[1..], resolution)
  }

  lemma {:induction false} AssembleConcat(p: SensorEvent, a: seq<RawEvent>, b: seq<RawEvent>, resolution: real)
    ensures PendingAfter(p, a + b, resolution) == PendingAfter(PendingAfter(p, a, resolution), b, resolution)
    ensures Assemble(p, a + b, resolution)
         == Assemble(p, a, resolution) + Assemble(PendingAfter(p, a, resolution), b, resolution)
    decreases |a|
  {
    if a == [] {
      assert a + b == b;
    } else {
      assert (a + b)[1..] == a[1..] + b;
      AssembleConcat(Absorb(p, a[0], resolution), a[1..], b, resolution);
    }
  }

  // ----- What the assembled stream means, without reference to the assembly -----

  function SynCount(raw: seq<RawEvent>): nat {
    if raw == [] then 0
    else SynCount(raw[..|raw| - 1]) + if raw[|raw| - 1].kind == EV_SYN then 1 else 0
  }

  // The latest value reported on an axis, scaled, or `start` if there was none.
  function Latest(raw: seq<RawEvent>, axis: int, start: real, resolution: real): real {
    if raw == [] then start
    else
      var last := raw[|raw| - 1];
      if last.kind == EV_ABS && last.code == axis then last.value as real * resolution
      else Latest(raw[..|raw| - 1], axis, start, resolution)
  }

  lemma {:induction false} PendingIsLatest(p: SensorEvent, raw: seq<RawEvent>, resolution: real)
    ensures var q := PendingAfter(p, raw, resolution);
            && q.sensor == p.sensor
            && q.x == Latest(raw, ABS_X, p.x, resolution)
            && q.y == Latest(raw, ABS_Y, p.y, resolution)
            && q.z == Latest(raw, ABS_Z, p.z, resolution)
  {
    if raw != [] {
      var init, last := raw[..|raw| - 1], raw[|raw| - 1..];
      PendingIsLatest(p, init, resolution);
      AssembleConcat(p, init, last, resolution);
      assert raw == init + last;
      assert last[1..] == [];
    }
  }

  // The i-th raw event is an EV_SYN and its sensor event is in place: it carries the time
  // of that EV_SYN and the latest X, Y and Z reported before it.
  ghost predicate EmittedAt(p: SensorEvent, raw: seq<RawEvent>, resolution: real, i: nat)
    requires i < |raw|
  {
    var k := SynCount(raw[..i]);
    k < |Assemble(p, raw, resolution)| &&
    Assemble(p, raw, resolution)[k] ==
      SensorEvent(p.sensor, TimevalToNano(raw[i].sec, raw[i].usec),
                  Latest(raw[..i], ABS_X, p.x, resolution),
                  Latest(raw[..i], ABS_Y, p.y, resolution),
                  Latest(raw[..i], ABS_Z, p.z, resolution))
  }

  // There is exactly one sensor event per EV_SYN, in order.
  lemma {:induction false} AssembleMeaning(p: SensorEvent, raw: seq<RawEvent>, resolution: real)
    ensures |Assemble(p, raw, resolution)| == SynCount(raw)
    ensures forall i :: 0 <= i < |raw| && raw[i].kind == EV_SYN ==> EmittedAt(p, raw, resolution, i)
  {
    if raw != [] {
      var n := |raw| - 1;
      var init, last := raw[..n], raw[n..];
      AssembleMeaning(p, init, resolution);
      AssembleConcat(p, init, last, resolution);
      PendingIsLatest(p, init, resolution);
      assert raw == init + last;
      var q := PendingAfter(p, init, resolution);
      assert last[1..] == [];
      assert Assemble(q, last, resolution) == if raw[n].kind == EV_SYN then [Absorb(q, raw[n], resolution)] else [];
      forall i | 0 <= i < |raw| && raw[i].kind == EV_SYN
        ensures EmittedAt(p, raw, resolution, i)
      {
        if i < n {
          assert init[..i] == raw[..i];
          assert init[i].kind == EV_SYN && EmittedAt(p, init, resolution, i);
        }
      }
    }
  }

  // ----- The driver object as a value, and one readEvents call on it -----

  datatype SensorState = SensorState(
    pending: SensorEvent, hasPending: bool, enabled: bool, resolution: real, unread: seq<RawEvent>)

  // The consuming loop: stop at `count` emitted events or when the ring is empty.
  function Drain(s: SensorState, count: nat): (SensorState, seq<SensorEvent>)
    decreases |s.unread|
  {
    if count == 0 || s.unread == [] then (s, [])
    else
      var e := s.unread[0];
      var s' := s.(pending := Absorb(s.pending, e, s.resolution), unread := s.unread[1..]);
      if e.kind == EV_SYN && s.enabled then
        var (s'', out) := Drain(s', count - 1);
        (s'', [s'.pending] + out)
      else Drain(s', count)
  }

  // A drain of `start` that has emitted `emitted` goes on as a drain of `s`.
  ghost predicate Continues(start: SensorState, room: nat, s: SensorState, count: nat, emitted: seq<SensorEvent>) {
    Drain(start, room) == (Drain(s, count).0, emitted + Drain(s, count).1)
  }

  lemma DrainOne(start: SensorState, room: nat, s: SensorState, count: nat, emitted: seq<SensorEvent>)
    requires count > 0 && s.unread != [] && Continues(start, room, s, count, emitted)
    ensures var e := s.unread[0];
            var s' := s.(pending := Absorb(s.pending, e, s.resolution), unread := s.unread[1..]);
            if e.kind == EV_SYN && s.enabled
            then Continues(start, room, s', count - 1, emitted + [s'.pending])
            else Continues(start, room, s', count, emitted)
  {
    var e := s.unread[0];
    var s' := s.(pending := Absorb(s.pending, e, s.resolution), unread := s.unread[1..]);
    if e.kind == EV_SYN && s.enabled {
      var out := Drain(s', count - 1).1;
      assert emitted + ([s'.pending] + out) == (emitted + [s'.pending]) + out;
    }
  }

  lemma DrainBegins(start: SensorState, room: nat)
    ensures Continues(start, room, start, room, [])
  {
    assert [] + Drain(start, room).1 == Drain(start, room).1;
    hide Drain;
  }

  lemma DrainDone(start: SensorState, room: nat, s: SensorState, count: nat, emitted: seq<SensorEvent>)
    requires Continues(start, room, s, count, emitted) && (count == 0 || s.unread == [])
    ensures Drain(start, room) == (s, emitted)
  {
    assert emitted + [] == emitted;
  }

  function ReadStep(s: SensorState, batch: seq<RawEvent>, count: nat, now: int): (SensorState, seq<SensorEvent>) {
    if count == 0 then (s, [])
    else if s.hasPending then
      var p := s.pending.(timestamp := now);
      (s.(pending := p, hasPending := false), if s.enabled then [p] else [])
    else Drain(s.(unread := s.unread + batch), count)
  }

  // The pending-event shortcut: the pending event is handed out once, if the sensor is enabled,
  // with the time of the call; nothing is read from the kernel or from the ring.
  lemma PendingShortcut(s: SensorState, batch: seq<RawEvent>, count: nat, now: int)
    requires count > 0 && s.hasPending
    ensures var (s', out) := ReadStep(s, batch, count, now);
      && !s'.hasPending && s'.unread == s.unread && s'.enabled == s.enabled && s'.resolution == s.resolution
      && s'.pending == SensorEvent(s.pending.sensor, now, s.pending.x, s.pending.y, s.pending.z)
      && out == if s.enabled then [s'.pending] else []
  {
  }

  // Draining is a split of the pending assembly: what it emits, followed by what the rest
  // still stands for, is what the whole stood for; and it only stops short when full.
  lemma {:induction false} DrainSplits(s: SensorState, count: nat)
    ensures var (s', out) := Drain(s, count);
      && s' == s.(pending := s'.pending, unread := s'.unread)
      && |s'.unread| <= |s.unread|
      && |out| <= count
      && (|out| < count ==> s'.unread == [])
      && PendingAfter(s'.pending, s'.unread, s.resolution) == PendingAfter(s.pending, s.unread, s.resolution)
      && (if s.enabled
          then out + Assemble(s'.pending, s'.unread, s.resolution) == Assemble(s.pending, s.unread, s.resolution)
          else out == [])
    decreases |s.unread|
  {
    if count != 0 && s.unread != [] {
      var e := s.unread[0];
      var s' := s.(pending := Absorb(s.pending, e, s.resolution), unread := s.unread[1..]);
      if e.kind == EV_SYN && s.enabled {
        DrainSplits(s', count - 1);
        var (s'', out) := Drain(s', count - 1);
        assert ([s'.pending] + out) + Assemble(s''.pending, s''.unread, s.resolution)
            == [s'.pending] + (out + Assemble(s''.pending, s''.unread, s.resolution));
      } else {
        DrainSplits(s', count);
      }
    }
  }

  // ----- Runs of readEvents calls -----

  datatype Call = Call(batch: seq<RawEvent>, count: nat)

  // The driver state and everything emitted after a run of calls.
  function RunCalls(s: SensorState, calls: seq<Call>): (SensorState, seq<SensorEvent>) {
    if calls == [] then (s, [])
    else
      var (s1, out1) := RunCalls(s, calls[..|calls| - 1]);
      var last := calls[|calls| - 1];
      var (s2, out2) := ReadStep(s1, last.batch, last.count, 0);
      (s2, out1 + out2)
  }

  // The raw stream those calls read from the kernel (a call with count < 1 reads nothing).
  function RawOf(calls: seq<Call>): seq<RawEvent> {
    if calls == [] then []
    else
      var last := calls[|calls| - 1];
      RawOf(calls[..|calls| - 1]) + if last.count == 0 then [] else last.batch
  }

  // However the stream is cut into batches and whatever room each call offers, emitted
  // events plus what the unread rest stands for is the assembly of the raw stream.
  lemma {:induction false} RunSplitsStream(s: SensorState, calls: seq<Call>)
    requires s.enabled && !s.hasPending
    ensures var (s', out) := RunCalls(s, calls);
      && s' == s.(pending := s'.pending, unread := s'.unread)
      && out + Assemble(s'.pending, s'.unread, s.resolution)
         == Assemble(s.pending, s.unread + RawOf(calls), s.resolution)
      && PendingAfter(s'.pending, s'.unread, s.resolution)
         == PendingAfter(s.pending, s.unread + RawOf(calls), s.resolution)
  {
    hide Drain, Assemble, PendingAfter;
    if calls == [] {
      assert s.unread + [] == s.unread;
      assert [] + Assemble(s.pending, s.unread, s.resolution) == Assemble(s.pending, s.unread, s.resolution);
    } else {
      var init, last := calls[..|calls| - 1], calls[|calls| - 1];
      RunSplitsStream(s, init);
      var (s1, out1) := RunCalls(s, init);
      if last.count == 0 {
        assert RawOf(calls) == RawOf(init);
        assert out1 + [] == out1;
      } else {
        var r := s.resolution;
        var (s2, out2) := ReadStep(s1, last.batch, last.count, 0);
        DrainSplits(s1.(unread := s1.unread + last.batch), last.count);
        AssembleConcat(s1.pending, s1.unread, last.batch, r);
        AssembleConcat(s.pending, s.unread + RawOf(init), last.batch, r);
        assert s.unread + RawOf(calls) == (s.unread + RawOf(init)) + last.batch;
        calc {
          (out1 + out2) + Assemble(s2.pending, s2.unread, r);
          out1 + (out2 + Assemble(s2.pending, s2.unread, r));
          out1 + (Assemble(s1.pending, s1.unread, r) + Assemble(PendingAfter(s1.pending, s1.unread, r), last.batch, r));
          (out1 + Assemble(s1.pending, s1.unread, r)) + Assemble(PendingAfter(s1.pending, s1.unread, r), last.batch, r);
          Assemble(s.pending, s.unread + RawOf(calls), r);
        }
      }
    }
  }

  // Chunking independence: two drained runs over the same raw stream emit the same events
  // and leave the same pending event, and each emits the assembly of that stream.
  lemma ChunkingIndependence(s: SensorState, c1: seq<Call>, c2: seq<Call>)
    requires s.enabled && !s.hasPending && s.unread == []
    requires RawOf(c1) == RawOf(c2)
    requires RunCalls(s, c1).0.unread == [] && RunCalls(s, c2).0.unread == []
    ensures RunCalls(s, c1) == RunCalls(s, c2)
    ensures RunCalls(s, c1).1 == Assemble(s.pending, RawOf(c1), s.resolution)
  {
    RunSplitsStream(s, c1);
    RunSplitsStream(s, c2);
    assert [] + RawOf(c1) == RawOf(c1) && [] + RawOf(c2) == RawOf(c2);
    assert RunCalls(s, c1).1 + [] == RunCalls(s, c1).1;
    assert RunCalls(s, c2).1 + [] == RunCalls(s, c2).1;
  }

  // Undrained runs differ only in how much of that one stream they have emitted so far.
  lemma EmittedIsPrefix(s: SensorState, calls: seq<Call>)
    requires s.enabled && !s.hasPending && s.unread == []
    ensures RunCalls(s, calls).1 <= Assemble(s.pending, RawOf(calls), s.resolution)
  {
    RunSplitsStream(s, calls);
    assert [] + RawOf(calls) == RawOf(calls);
  }

  // ----- The driver object itself -----

  class AccelerationSensor {
    var mPendingEvent: SensorEvent
    var mHasPendingEvent: bool
    var mEnabled: bool
    const mResolution: real
    const mInputReader: InputEventCircularReader<RawEvent>

    ghost predicate Valid()
      reads this, mInputReader
    {
      mInputReader.Valid() && mInputReader.numEvents > 0
    }

    ghost function State(): SensorState
      requires Valid()
      reads this, mInputReader, mInputReader.mBuffer
    {
      SensorState(mPendingEvent, mHasPendingEvent, mEnabled, mResolution, mInputReader.Unread())
    }

    constructor (resolution: real)
      ensures Valid() && fresh(mInputReader) && fresh(mInputReader.mBuffer)
      ensures State() == SensorState(SensorEvent(0, 0, 0.0, 0.0, 0.0), false, false, resolution, [])
      ensures mInputReader.numEvents == 4
    {
      mPendingEvent := SensorEvent(0, 0, 0.0, 0.0, 0.0);
      mHasPendingEvent, mEnabled, mResolution := false, false, resolution;
      mInputReader := new InputEventCircularReader<RawEvent>(4);
    }

    // Writes at most `count` events from data[at] on and returns how many, or a negative
    // error. `now` is the clock, `outcome` what a kernel read would do.
    method ReadEvents(data: array<SensorEvent>, at: nat, count: int, outcome: KernelRead<RawEvent>, now: int)
      returns (r: int)
      requires Valid()
      requires count > 0 ==> at + count <= data.Length
      requires outcome.Legal(mInputReader.mFreeSpace) || mInputReader.mFreeSpace == 0
      modifies this, mInputReader, mInputReader.mBuffer, data
      ensures Valid()
      ensures count < 1 ==> r == -EINVAL && State() == old(State()) && data[..] == old(data[..])
      ensures count >= 1 && !old(mHasPendingEvent) && old(mInputReader.mFreeSpace) > 0 && !outcome.WholeRead? ==>
                r < 0 && State() == old(State()) && data[..] == old(data[..])
      ensures count >= 1 && (old(mHasPendingEvent) || old(mInputReader.mFreeSpace) == 0 || outcome.WholeRead?) ==>
                var batch := if old(mInputReader.mFreeSpace) == 0 then [] else outcome.Accepted();
                var (s, out) := ReadStep(old(State()), batch, count, now);
                && State() == s && r == |out| <= count
                && data[at..at + r] == out
                && (forall i :: 0 <= i < data.Length && !(at <= i < at + count) ==> data[i] == old(data[i]))
    {
      if count < 1 {
        return -EINVAL;
      }
      if mHasPendingEvent {
        mHasPendingEvent := false;
        mPendingEvent := mPendingEvent.(timestamp := now);
        data[at] := mPendingEvent;
        return if mEnabled then 1 else 0;
      }
      var n := mInputReader.Fill(outcome);
      if n < 0 {
        return n;
      }
      assert old(mInputReader.Unread()) + [] == old(mInputReader.Unread());
      assert State() == old(State()).(unread := State().unread);
      r := Consume(data, at, count);
    }

    // One turn of the loop, up to the emission: absorb the oldest unread event and drop it.
    method AbsorbNext(event: RawEvent)
      requires Valid() && mInputReader.Unread() != [] && event == mInputReader.Unread()[0]
      modifies this, mInputReader
      ensures Valid()
      ensures State() == old(State()).(pending := Absorb(old(mPendingEvent), event, mResolution),
                                       unread := old(mInputReader.Unread())[1..])
    {
      mPendingEvent := Absorb(mPendingEvent, event, mResolution);
      mInputReader.Next();
    }

    // The loop of readEvents.
    method Consume(data: array<SensorEvent>, at: nat, room: nat) returns (r: nat)
      requires Valid() && at + room <= data.Length
      modifies this, mInputReader, data
      ensures Valid()
      ensures var (s, out) := Drain(old(State()), room);
              && State() == s && r == |out| <= room
              && data[at..at + r] == out
      ensures forall i :: 0 <= i < data.Length && !(at <= i < at + room) ==> data[i] == old(data[i])
    {
      hide Drain, Continues;
      ghost var start := State();
      DrainBegins(start, room);
      var count: nat := room;
      r := 0;
      assert data[at..at + r] == [];
      var available, event := mInputReader.ReadEvent();
      while count > 0 && available
        invariant Valid() && count + r == room
        invariant available == (State().unread != []) && (available ==> event == State().unread[0])
        invariant Continues(start, room, State(), count, data[at..at + r])
        invariant forall i :: 0 <= i < data.Length && !(at <= i < at + room) ==> data[i] == old(data[i])
        decreases |State().unread|
      {
        r := ConsumeOne(data, at, room, r, event, start);
        count := room - r;
        available, event := mInputReader.ReadEvent();
      }
      DrainDone(start, room, State(), count, data[at..at + r]);
    }

    // The loop body.
    method ConsumeOne(data: array<SensorEvent>, at: nat, room: nat, n: nat, event: RawEvent, ghost start: SensorState)
      returns (r: nat)
      requires Valid() && at + room <= data.Length && n < room
      requires State().unread != [] && event == State().unread[0]
      requires Continues(start, room, State(), room - n, data[at..at + n])
      modifies this, mInputReader, data
      ensures Valid() && n <= r <= room
      ensures State().unread == old(State()).unread[1..]
      ensures Continues(start, room, State(), room - r, data[at..at + r])
      ensures forall i :: 0 <= i < data.Length && !(at <= i < at + room) ==> data[i] == old(data[i])
    {
      hide Continues, Absorb;
      DrainOne(start, room, State(), room - n, data[at..at + n]);
      AbsorbNext(event);
      r := n;
      if event.kind == EV_SYN && mEnabled {
        data[at + r] := mPendingEvent;
        r := r + 1;
        assert data[at..at + r] == old(data[at..at + n]) + [mPendingEvent];
      }
    }
  }
}
