// The multi-sensor poll loop (hardware/libsensor/sensors.cpp, pollEvents). Each driver is
// the value of a driver object; its readEvents is AccelerationSensor.ReadStep, which the
// driver class refines.
module SensorPoll {
  import opened AccelerationSensor

  const NUM_SENSOR_DRIVERS: nat := 7

  datatype Driver = Absent | Present(s: SensorState)

  datatype PollResult = Polled(ready: seq<bool>, wake: bool) | PollFailed(errno: int)

  // What the kernel does in one turn of the outer loop: the events each driver would read,
  // and the outcome of poll(2) if it is called.
  datatype Round = Round(batches: seq<seq<RawEvent>>, poll: PollResult)

  datatype Return = Returned(nbEvents: nat) | Failed(errno: int) | StillPolling

  // The context as poll(2) finds it.
  datatype Snapshot = Snapshot(sensors: seq<Driver>, revents: seq<bool>, nbEvents: nat, room: nat)

  function CountTrue(bits: seq<bool>): nat {
    if bits == [] then 0 else (if bits[0] then 1 else 0) + CountTrue(bits[1..])
  }

  lemma {:induction false} CountsNothing(bits: seq<bool>)
    ensures CountTrue(bits) == 0 <==> true !in bits
  {
    if bits != [] {
      CountsNothing(bits[1..]);
    }
  }

  // poll(2) reports a readable driver or a wake-up.
  predicate Reports(p: PollResult) { p.Polled? && (true in p.ready || p.wake) }

  // The events of one sensor, in order.
  function BySensor(events: seq<SensorEvent>, id: int): seq<SensorEvent> {
    if events == [] then []
    else
      BySensor(events[..|events| - 1], id) +
      if events[|events| - 1].sensor == id then [events[|events| - 1]] else []
  }

  lemma {:induction false} BySensorConcat(a: seq<SensorEvent>, b: seq<SensorEvent>, id: int)
    ensures BySensor(a + b, id) == BySensor(a, id) + BySensor(b, id)
    decreases |b|
  {
    if b == [] {
      assert a + b == a;
    } else {
      var init := b[..|b| - 1];
      assert (a + b)[..|a + b| - 1] == a + init;
      BySensorConcat(a, init, id);
    }
  }

  lemma {:induction false} BySensorAll(a: seq<SensorEvent>, own: int, id: int)
    requires forall k :: 0 <= k < |a| ==> a[k].sensor == own
    ensures BySensor(a, id) == if id == own then a else []
  {
    if a != [] {
      BySensorAll(a[..|a| - 1], own, id);
      assert a == a[..|a| - 1] + [a[|a| - 1]];
    }
  }

  // The account of one driver that started as `s0`, has read `raw` since and is now `s`:
  // events handed out followed by events still owed are the assembly of what it held and
  // read, nothing is handed out while disabled, and its configuration is unchanged.
  ghost predicate Account(s0: SensorState, raw: seq<RawEvent>, s: SensorState, paid: seq<SensorEvent>) {
    && s == s0.(pending := s.pending, unread := s.unread)
    && PendingAfter(s.pending, s.unread, s.resolution) == PendingAfter(s0.pending, s0.unread + raw, s.resolution)
    && if s.enabled
       then paid + Assemble(s.pending, s.unread, s.resolution) == Assemble(s0.pending, s0.unread + raw, s.resolution)
       else paid == []
  }

  lemma {:induction false} DrainKeepsSensor(s: SensorState, count: nat)
    ensures var (s', out) := Drain(s, count);
            s'.pending.sensor == s.pending.sensor && forall k :: 0 <= k < |out| ==> out[k].sensor == s.pending.sensor
    decreases |s.unread|
  {
    if count != 0 && s.unread != [] {
      var e := s.unread[0];
      var s' := s.(pending := Absorb(s.pending, e, s.resolution), unread := s.unread[1..]);
      if e.kind == EV_SYN && s.enabled {
        DrainKeepsSensor(s', count - 1);
      } else {
        DrainKeepsSensor(s', count);
      }
    }
  }

  // Reading more raw events extends the account by their assembly.
  lemma AccountFill(s0: SensorState, raw: seq<RawEvent>, s: SensorState, paid: seq<SensorEvent>, batch: seq<RawEvent>)
    requires Account(s0, raw, s, paid)
    ensures Account(s0, raw + batch, s.(unread := s.unread + batch), paid)
  {
    hide Assemble, PendingAfter;
    var r := s.resolution;
    AssembleConcat(s.pending, s.unread, batch, r);
    AssembleConcat(s0.pending, s0.unread + raw, batch, r);
    assert s0.unread + (raw + batch) == (s0.unread + raw) + batch;
    if s.enabled {
      var more := Assemble(PendingAfter(s.pending, s.unread, r), batch, r);
      assert paid + (Assemble(s.pending, s.unread, r) + more) == (paid + Assemble(s.pending, s.unread, r)) + more;
    }
  }

  // Draining pays out of what is owed.
  lemma AccountDrain(s0: SensorState, raw: seq<RawEvent>, s: SensorState, paid: seq<SensorEvent>, count: nat)
    requires Account(s0, raw, s, paid)
    ensures var (s', out) := Drain(s, count); Account(s0, raw, s', paid + out)
  {
    hide Assemble, PendingAfter, Drain;
    DrainSplits(s, count);
    var (s', out) := Drain(s, count);
    if s.enabled {
      assert (paid + out) + Assemble(s'.pending, s'.unread, s.resolution)
          == paid + (out + Assemble(s'.pending, s'.unread, s.resolution));
    }
  }

  // One readEvents call keeps the account, and drains the driver if it returns fewer events
  // than there was room for.
  lemma AccountRead(s0: SensorState, raw: seq<RawEvent>, s: SensorState, paid: seq<SensorEvent>,
                    batch: seq<RawEvent>, count: nat)
    requires Account(s0, raw, s, paid) && !s.hasPending && count > 0
    ensures var (s', out) := ReadStep(s, batch, count, 0);
      && Account(s0, raw + batch, s', paid + out)
      && |out| <= count && (|out| < count ==> s'.unread == [])
      && s'.pending.sensor == s.pending.sensor && !s'.hasPending
      && (forall k :: 0 <= k < |out| ==> out[k].sensor == s.pending.sensor)
  {
    hide Assemble, PendingAfter, Drain, Account;
    var f := s.(unread := s.unread + batch);
    AccountFill(s0, raw, s, paid, batch);
    AccountDrain(s0, raw + batch, f, paid, count);
    DrainSplits(f, count);
    DrainKeepsSensor(f, count);
  }

  // Driver table: seven slots, ids in place, no pending-event shortcut armed.
  ghost predicate Drivers(sensors: seq<Driver>) {
    && |sensors| == NUM_SENSOR_DRIVERS
    && forall i :: 0 <= i < NUM_SENSOR_DRIVERS && sensors[i].Present? ==>
         sensors[i].s.pending.sensor == i && !sensors[i].s.hasPending
  }

  lemma NoneBelow(sensors: seq<Driver>)
    ensures DrainedBelow(sensors, 0)
  {
  }

  ghost predicate DrainedBelow(sensors: seq<Driver>, n: int) {
    forall i :: 0 <= i < |sensors| && i < n && sensors[i].Present? ==> sensors[i].s.unread == []
  }

  // No driver holds an unread event.
  ghost predicate Drained(sensors: seq<Driver>) {
    DrainedBelow(sensors, |sensors|)
  }

  // A reader that still holds events is still marked readable.
  ghost predicate NotStranded(sensors: seq<Driver>, revents: seq<bool>) {
    && |revents| == |sensors|
    && forall i :: 0 <= i < |sensors| && sensors[i].Present? && sensors[i].s.unread != [] ==> revents[i]
  }

  // Reading driver i keeps every leftover marked, and settles i if room is left.
  lemma ReadKeepsMarks(sensors: seq<Driver>, revents: seq<bool>, i: nat, s': SensorState, out: seq<SensorEvent>,
                       batch: seq<RawEvent>, count: nat)
    requires Drivers(sensors) && NotStranded(sensors, revents) && DrainedBelow(sensors, i)
    requires i < NUM_SENSOR_DRIVERS && sensors[i].Present? && count > 0 && revents[i]
    requires (s', out) == ReadStep(sensors[i].s, batch, count, 0)
    ensures NotStranded(sensors[i := Present(s')], if |out| < count then revents[i := false] else revents)
    ensures |out| < count ==> DrainedBelow(sensors[i := Present(s')], i + 1)
  {
    DrainSplits(sensors[i].s.(unread := sensors[i].s.unread + batch), count);
    hide Drain, Assemble, PendingAfter;
  }

  // The ledger of one call: every driver's account holds, and every event handed out
  // belongs to a driver that is present.
  ghost predicate Balanced(start: seq<Driver>, raw: seq<seq<RawEvent>>, now: seq<Driver>, out: seq<SensorEvent>) {
    && |start| == |raw| == |now| == NUM_SENSOR_DRIVERS
    && (forall i :: 0 <= i < NUM_SENSOR_DRIVERS ==> now[i].Present? == start[i].Present?)
    && (forall i :: 0 <= i < NUM_SENSOR_DRIVERS && now[i].Present? ==>
          Account(start[i].s, raw[i], now[i].s, BySensor(out, i)))
    && (forall k :: 0 <= k < |out| ==> 0 <= out[k].sensor < NUM_SENSOR_DRIVERS && now[out[k].sensor].Present?)
  }

  lemma BalanceStep(start: seq<Driver>, raw: seq<seq<RawEvent>>, now: seq<Driver>, out: seq<SensorEvent>,
                    i: nat, s': SensorState, more: seq<SensorEvent>, batch: seq<RawEvent>, count: nat)
    requires Drivers(now) && Balanced(start, raw, now, out)
    requires i < NUM_SENSOR_DRIVERS && now[i].Present? && count > 0
    requires (s', more) == ReadStep(now[i].s, batch, count, 0)
    ensures Balanced(start, raw[i := raw[i] + batch], now[i := Present(s')], out + more)
    ensures Drivers(now[i := Present(s')])
    ensures |more| <= count && (|more| < count ==> s'.unread == [])
  {
    hide ReadStep, Account, BySensor;
    AccountRead(start[i].s, raw[i], now[i].s, BySensor(out, i), batch, count);
    forall j | 0 <= j < NUM_SENSOR_DRIVERS && now[j].Present?
      ensures j != i ==> Account(start[j].s, raw[j], now[j].s, BySensor(out + more, j))
      ensures j == i ==> Account(start[i].s, raw[i] + batch, s', BySensor(out + more, i))
    {
      BySensorConcat(out, more, j);
      BySensorAll(more, i, j);
      if j != i {
        assert BySensor(out, j) + [] == BySensor(out, j);
      }
    }
  }

  // One leftover pass: which drivers were readable when it began, with how much room; which
  // were read, and how much room was left.
  datatype Pass = Pass(marks: seq<bool>, room: nat, read: seq<bool>, left: nat)

  // Every readable driver is read, in order, until the room is used up.
  ghost predicate ReadsInOrder(sensors: seq<Driver>, p: Pass) {
    && |sensors| == |p.marks| == |p.read| == NUM_SENSOR_DRIVERS && p.left <= p.room
    && exists cut :: ReadsUpto(sensors, p, cut)
  }

  ghost predicate ReadsUpto(sensors: seq<Driver>, p: Pass, cut: int)
    requires |sensors| == |p.marks| == |p.read| == NUM_SENSOR_DRIVERS
  {
    && 0 <= cut <= NUM_SENSOR_DRIVERS && (cut < NUM_SENSOR_DRIVERS ==> p.left == 0)
    && forall i :: 0 <= i < NUM_SENSOR_DRIVERS ==> (p.read[i] <==> i < cut && sensors[i].Present? && p.marks[i])
  }

  // The batches driver i was offered in the passes that read it.
  function ReadBy(passes: seq<Pass>, rounds: seq<Round>, i: nat): seq<RawEvent>
    requires |passes| <= |rounds|
    requires forall k :: 0 <= k < |passes| ==> i < |passes[k].read| && i < |rounds[k].batches|
  {
    if passes == [] then []
    else
      var n := |passes| - 1;
      ReadBy(passes[..n], rounds, i) + if passes[n].read[i] then rounds[n].batches[i] else []
  }

  // The passes of a call follow from what poll reported: the first begins with the marks the
  // call found, each later one with exactly what the poll before it reported, as long as room
  // is left and something was reported.
  ghost predicate Follows(start: seq<Driver>, marks: seq<bool>, capacity: nat, rounds: seq<Round>, passes: seq<Pass>) {
    && |passes| <= |rounds|
    && (forall k :: 0 <= k < |passes| ==> ReadsInOrder(start, passes[k]))
    && (passes != [] ==> passes[0].marks == marks && passes[0].room == capacity)
    && forall k :: 0 < k < |passes| ==> Continued(rounds[k - 1].poll, passes[k - 1], passes[k])
  }

  predicate Continued(poll: PollResult, before: Pass, after: Pass) {
    Reports(poll) && before.left > 0 && after.marks == poll.ready && after.room == before.left
  }

  // Each driver has read its batches of exactly the passes that read it.
  ghost predicate ReadsAre(raw: seq<seq<RawEvent>>, passes: seq<Pass>, rounds: seq<Round>) {
    && |raw| == NUM_SENSOR_DRIVERS && |passes| <= |rounds|
    && (forall k :: 0 <= k < |passes| ==> |passes[k].read| == |rounds[k].batches| == NUM_SENSOR_DRIVERS)
    && forall i: nat :: i < NUM_SENSOR_DRIVERS ==> raw[i] == ReadBy(passes, rounds, i)
  }

  ghost predicate AddsReads(raw: seq<seq<RawEvent>>, raw': seq<seq<RawEvent>>, read: seq<bool>,
                            batches: seq<seq<RawEvent>>)
  {
    && |raw| == |raw'| == |read| == |batches| == NUM_SENSOR_DRIVERS
    && forall i :: 0 <= i < NUM_SENSOR_DRIVERS ==> raw'[i] == raw[i] + if read[i] then batches[i] else []
  }

  lemma AddPass(raw: seq<seq<RawEvent>>, raw': seq<seq<RawEvent>>, passes: seq<Pass>, rounds: seq<Round>, p: Pass)
    requires ReadsAre(raw, passes, rounds) && |passes| < |rounds|
    requires AddsReads(raw, raw', p.read, rounds[|passes|].batches)
    ensures ReadsAre(raw', passes + [p], rounds)
  {
    assert (passes + [p])[..|passes|] == passes;
  }

  // The same drivers are present.
  predicate SamePresent(a: seq<Driver>, b: seq<Driver>) {
    |a| == |b| && forall j :: 0 <= j < |a| ==> a[j].Present? == b[j].Present?
  }

  lemma SameFor(a: seq<Driver>, b: seq<Driver>, c: seq<Driver>)
    requires SamePresent(a, b) && SamePresent(b, c)
    ensures SamePresent(a, c)
  {
  }

  lemma SamePresence(a: seq<Driver>, b: seq<Driver>, p: Pass)
    requires ReadsInOrder(a, p) && SamePresent(b, a)
    ensures ReadsInOrder(b, p)
  {
    var cut :| ReadsUpto(a, p, cut);
    assert ReadsUpto(b, p, cut);
  }

  // The outer loop stands before its k-th pass, with `count` room left.
  ghost predicate Underway(marks: seq<bool>, capacity: nat, rounds: seq<Round>, passes: seq<Pass>,
                           revents: seq<bool>, count: nat)
  {
    && |passes| <= |rounds|
    && if passes == [] then revents == marks && count == capacity
       else
         && Reports(rounds[|passes| - 1].poll) && revents == rounds[|passes| - 1].poll.ready
         && count == passes[|passes| - 1].left > 0
  }

  lemma PassDone(start: seq<Driver>, marks: seq<bool>, capacity: nat, rounds: seq<Round>, passes: seq<Pass>,
                 raw: seq<seq<RawEvent>>, raw': seq<seq<RawEvent>>, was: seq<Driver>, p: Pass)
    requires Follows(start, marks, capacity, rounds, passes) && ReadsAre(raw, passes, rounds)
    requires Underway(marks, capacity, rounds, passes, p.marks, p.room) && |passes| < |rounds|
    requires ReadsInOrder(was, p) && |start| == NUM_SENSOR_DRIVERS && SamePresent(start, was)
    requires AddsReads(raw, raw', p.read, rounds[|passes|].batches)
    ensures Follows(start, marks, capacity, rounds, passes + [p]) && ReadsAre(raw', passes + [p], rounds)
  {
    hide ReadsAre;
    SamePresence(was, start, p);
    AddPass(raw, raw', passes, rounds, p);
  }

  // Where the leftover pass stands before driver i.
  ghost predicate PassUpto(was: seq<Driver>, marks: seq<bool>, now: seq<Driver>, revents: seq<bool>, read: seq<bool>,
                           raw: seq<seq<RawEvent>>, raw': seq<seq<RawEvent>>, batches: seq<seq<RawEvent>>, i: nat)
  {
    && |was| == |marks| == |now| == |revents| == |read| == |raw| == |raw'| == |batches| == NUM_SENSOR_DRIVERS
    && SamePresent(was, now)
    && (forall j :: i <= j < NUM_SENSOR_DRIVERS ==> revents[j] == marks[j])
    && (forall j :: 0 <= j < NUM_SENSOR_DRIVERS ==> (read[j] <==> j < i && was[j].Present? && marks[j]))
    && AddsReads(raw, raw', read, batches)
  }

  lemma PassStart(was: seq<Driver>, marks: seq<bool>, raw: seq<seq<RawEvent>>, batches: seq<seq<RawEvent>>)
    requires |was| == |marks| == |raw| == |batches| == NUM_SENSOR_DRIVERS
    ensures PassUpto(was, marks, was, marks, seq(NUM_SENSOR_DRIVERS, _ => false), raw, raw, batches, 0)
  {
  }

  lemma PassLengths(was: seq<Driver>, marks: seq<bool>, now: seq<Driver>, revents: seq<bool>, read: seq<bool>,
                    raw: seq<seq<RawEvent>>, raw': seq<seq<RawEvent>>, batches: seq<seq<RawEvent>>, i: nat)
    requires PassUpto(was, marks, now, revents, read, raw, raw', batches, i)
    ensures |now| == |revents| == |read| == |raw'| == NUM_SENSOR_DRIVERS
  {
  }

  lemma PassNext(was: seq<Driver>, marks: seq<bool>, now: seq<Driver>, revents: seq<bool>, read: seq<bool>,
                 raw: seq<seq<RawEvent>>, raw': seq<seq<RawEvent>>, batches: seq<seq<RawEvent>>, i: nat,
                 now': seq<Driver>, revents': seq<bool>)
    requires PassUpto(was, marks, now, revents, read, raw, raw', batches, i) && i < NUM_SENSOR_DRIVERS
    requires |now'| == |revents'| == NUM_SENSOR_DRIVERS && SamePresent(now, now')
    requires forall j :: i < j < NUM_SENSOR_DRIVERS ==> revents'[j] == revents[j]
    ensures var due := now[i].Present? && revents[i];
            PassUpto(was, marks, now', revents', read[i := due], raw,
                     if due then raw'[i := raw'[i] + batches[i]] else raw', batches, i + 1)
  {
  }

  lemma PassEnd(was: seq<Driver>, marks: seq<bool>, now: seq<Driver>, revents: seq<bool>, read: seq<bool>,
                raw: seq<seq<RawEvent>>, raw': seq<seq<RawEvent>>, batches: seq<seq<RawEvent>>, i: nat,
                room: nat, left: nat)
    requires PassUpto(was, marks, now, revents, read, raw, raw', batches, i) && i <= NUM_SENSOR_DRIVERS
    requires left <= room && (i < NUM_SENSOR_DRIVERS ==> left == 0)
    ensures ReadsInOrder(was, Pass(marks, room, read, left)) && SamePresent(was, now)
    ensures AddsReads(raw, raw', read, batches)
  {
    assert ReadsUpto(was, Pass(marks, room, read, left), i);
  }

  lemma BalanceStart(start: seq<Driver>)
    requires |start| == NUM_SENSOR_DRIVERS
    ensures Balanced(start, seq(NUM_SENSOR_DRIVERS, _ => []), start, [])
  {
    forall i | 0 <= i < NUM_SENSOR_DRIVERS && start[i].Present?
      ensures Account(start[i].s, [], start[i].s, [])
    {
      assert start[i].s.unread + [] == start[i].s.unread;
      var owed := Assemble(start[i].s.pending, start[i].s.unread, start[i].s.resolution);
      assert [] + owed == owed;
    }
  }

  // At every poll(2), all readers are empty, no leftover has lost its mark, and events stored
  // plus room is the requested count.
  ghost predicate PollsInOrder(atPoll: seq<Snapshot>, capacity: nat) {
    forall p :: p in atPoll ==>
      && Drained(p.sensors) && NotStranded(p.sensors, p.revents)
      && p.nbEvents + p.room == capacity && p.room > 0
  }

  lemma AddPoll(atPoll: seq<Snapshot>, capacity: nat, sensors: seq<Driver>, revents: seq<bool>, nbEvents: nat,
                room: nat)
    requires PollsInOrder(atPoll, capacity) && Drained(sensors) && NotStranded(sensors, revents)
    requires nbEvents + room == capacity && room > 0
    ensures PollsInOrder(atPoll + [Snapshot(sensors, revents, nbEvents, room)], capacity)
  {
    hide Drained, NotStranded;
  }

  // A call begins.
  lemma CallStart(sensors: seq<Driver>, marks: seq<bool>, capacity: nat, rounds: seq<Round>)
    requires |sensors| == NUM_SENSOR_DRIVERS
    ensures var raw := seq(NUM_SENSOR_DRIVERS, _ => []);
      && Balanced(sensors, raw, sensors, []) && ReadsAre(raw, [], rounds)
    ensures Follows(sensors, marks, capacity, rounds, []) && Underway(marks, capacity, rounds, [], marks, capacity)
    ensures SamePresent(sensors, sensors) && PollsInOrder([], capacity)
  {
    hide Balanced;
    BalanceStart(sensors);
  }

  // What follows a poll: what it reported overwrites the marks of drained readers.
  lemma AfterPoll(marks: seq<bool>, capacity: nat, rounds: seq<Round>, passes: seq<Pass>, sensors: seq<Driver>,
                  ready: seq<bool>, wake: bool, count: nat)
    requires 0 < |passes| <= |rounds| && rounds[|passes| - 1].poll == Polled(ready, wake)
    requires count == passes[|passes| - 1].left > 0 && Drained(sensors) && |sensors| == |ready|
    ensures NotStranded(sensors, ready)
    ensures CountTrue(ready + [wake]) == 0 <==> !Reports(Polled(ready, wake))
    ensures CountTrue(ready + [wake]) != 0 ==> Underway(marks, capacity, rounds, passes, ready, count)
  {
    CountsNothing(ready + [wake]);
  }

  class PollContext {
    var mSensors: seq<Driver>
    var mRevents: seq<bool>     // POLLIN of each driver's descriptor
    var mWakeRevents: bool

    constructor (sensors: seq<Driver>)
      requires Drivers(sensors) && Drained(sensors)
      ensures mSensors == sensors && NotStranded(mSensors, mRevents)
    {
      mSensors, mRevents, mWakeRevents := sensors, seq(|sensors|, _ => false), false;
    }

    // One driver's turn: data[at..] receives its events; revents is cleared if it ran dry.
    method ReadDriver(i: nat, data: array<SensorEvent>, at: nat, count: nat, batch: seq<RawEvent>) returns (nb: nat)
      requires Drivers(mSensors) && |mRevents| == NUM_SENSOR_DRIVERS
      requires i < NUM_SENSOR_DRIVERS && mSensors[i].Present? && 0 < count && at + count <= data.Length
      modifies this, data
      ensures var (s', out) := ReadStep(old(mSensors[i].s), batch, count, 0);
              && mSensors == old(mSensors)[i := Present(s')]
              && nb == |out| <= count && data[..at + nb] == old(data[..at]) + out
      ensures mRevents == if nb < count then old(mRevents)[i := false] else old(mRevents)
    {
      DrainSplits(mSensors[i].s.(unread := mSensors[i].s.unread + batch), count);
      var (s', out) := ReadStep(mSensors[i].s, batch, count, 0);
      mSensors := mSensors[i := Present(s')];
      nb := |out|;
      forall k | 0 <= k < nb {
        data[at + k] := out[k];
      }
      if nb < count {
        mRevents := mRevents[i := false];
      }
    }

    // Mid-call: data[..n] holds the events handed out so far, the ledger balances, and no
    // leftover has lost its mark.
    ghost predicate InOrder(data: array<SensorEvent>, n: nat, start: seq<Driver>, raw: seq<seq<RawEvent>>)
      reads this, data
    {
      && n <= data.Length && |mSensors| == |mRevents| == |raw| == NUM_SENSOR_DRIVERS
      && Drivers(mSensors) && NotStranded(mSensors, mRevents)
      && Balanced(start, raw, mSensors, data[..n])
    }

    lemma OrderMeans(data: array<SensorEvent>, n: nat, start: seq<Driver>, raw: seq<seq<RawEvent>>)
      ensures InOrder(data, n, start, raw) ==>
        |start| == |mSensors| == |mRevents| == |raw| == NUM_SENSOR_DRIVERS && n <= data.Length
      ensures n <= data.Length ==>
        (InOrder(data, n, start, raw) <==>
         Drivers(mSensors) && NotStranded(mSensors, mRevents) && Balanced(start, raw, mSensors, data[..n]))
    {
    }

    // The loop body of the leftover pass.
    method DriverTurn(i: nat, data: array<SensorEvent>, done: nat, room: nat, batch: seq<RawEvent>,
                      ghost start: seq<Driver>, ghost raw: seq<seq<RawEvent>>)
      returns (nbEvents: nat, count: nat, ghost raw': seq<seq<RawEvent>>)
      requires i < NUM_SENSOR_DRIVERS && 0 < room && done + room <= data.Length
      requires InOrder(data, done, start, raw) && DrainedBelow(mSensors, i)
      modifies this, data
      ensures InOrder(data, nbEvents, start, raw')
      ensures nbEvents + count == done + room && nbEvents >= done
      ensures count > 0 ==> DrainedBelow(mSensors, i + 1)
      ensures forall j :: i < j < NUM_SENSOR_DRIVERS ==> mRevents[j] == old(mRevents[j])
      ensures SamePresent(old(mSensors), mSensors)
      ensures raw' == if old(mSensors[i].Present? && mRevents[i]) then raw[i := raw[i] + batch] else raw
    {
      nbEvents, count, raw' := done, room, raw;
      if mSensors[i].Present? && (mRevents[i] || mSensors[i].s.hasPending) {
        nbEvents, count, raw' := ReadTurn(i, data, done, room, batch, start, raw);
      }
    }

    // That body for a readable driver.
    method ReadTurn(i: nat, data: array<SensorEvent>, done: nat, room: nat, batch: seq<RawEvent>,
                    ghost start: seq<Driver>, ghost raw: seq<seq<RawEvent>>)
      returns (nbEvents: nat, count: nat, ghost raw': seq<seq<RawEvent>>)
      requires i < NUM_SENSOR_DRIVERS && 0 < room && done + room <= data.Length
      requires InOrder(data, done, start, raw) && DrainedBelow(mSensors, i)
      requires mSensors[i].Present? && mRevents[i]
      modifies this, data
      ensures InOrder(data, nbEvents, start, raw')
      ensures nbEvents + count == done + room && nbEvents >= done
      ensures count > 0 ==> DrainedBelow(mSensors, i + 1)
      ensures forall j :: i < j < NUM_SENSOR_DRIVERS ==> mRevents[j] == old(mRevents[j])
      ensures SamePresent(old(mSensors), mSensors)
      ensures raw' == raw[i := raw[i] + batch]
    {
      hide ReadStep, Balanced, Drivers, NotStranded, DrainedBelow;
      ghost var next := ReadStep(mSensors[i].s, batch, room, 0);
      ReadKeepsMarks(mSensors, mRevents, i, next.0, next.1, batch, room);
      BalanceStep(start, raw, mSensors, data[..done], i, next.0, next.1, batch, room);
      raw' := raw[i := raw[i] + batch];
      var nb := ReadDriver(i, data, done, room, batch);
      count, nbEvents := room - nb, done + nb;
    }

    // The leftover pass: every readable driver is read until the room is used up. If room
    // remains, no driver holds an unread event.
    method LeftoverPass(data: array<SensorEvent>, done: nat, room: nat, batches: seq<seq<RawEvent>>,
                        ghost start: seq<Driver>, ghost raw: seq<seq<RawEvent>>)
      returns (nbEvents: nat, count: nat, ghost raw': seq<seq<RawEvent>>, ghost pass: Pass)
      requires |batches| == NUM_SENSOR_DRIVERS && done + room <= data.Length
      requires InOrder(data, done, start, raw)
      modifies this, data
      ensures InOrder(data, nbEvents, start, raw')
      ensures nbEvents + count == done + room && nbEvents >= done
      ensures count > 0 ==> Drained(mSensors)
      ensures pass.marks == old(mRevents) && pass.room == room && pass.left == count
      ensures ReadsInOrder(old(mSensors), pass)
      ensures AddsReads(raw, raw', pass.read, batches)
      ensures SamePresent(old(mSensors), mSensors)
    {
      nbEvents, count, raw' := done, room, raw;
      ghost var read := seq(NUM_SENSOR_DRIVERS, _ => false);
      var i := 0;
      hide InOrder, PassUpto, ReadsInOrder, SamePresent, DrainedBelow, AddsReads;
      OrderMeans(data, done, start, raw);
      PassStart(mSensors, mRevents, raw, batches);
      NoneBelow(mSensors);
      while count > 0 && i < NUM_SENSOR_DRIVERS
        invariant 0 <= i <= NUM_SENSOR_DRIVERS && nbEvents + count == done + room && nbEvents >= done
        invariant InOrder(data, nbEvents, start, raw')
        invariant count > 0 ==> DrainedBelow(mSensors, i)
        invariant PassUpto(old(mSensors), old(mRevents), mSensors, mRevents, read, raw, raw', batches, i)
      {
        nbEvents, count, raw', read :=
          PassTurn(i, data, nbEvents, count, batches, start, old(mSensors), old(mRevents), read, raw, raw');
        i := i + 1;
      }
      pass := Pass(old(mRevents), room, read, count);
      PassEnd(old(mSensors), old(mRevents), mSensors, mRevents, read, raw, raw', batches, i, room, count);
    }

    // The loop body with its place in the pass.
    method PassTurn(i: nat, data: array<SensorEvent>, done: nat, room: nat, batches: seq<seq<RawEvent>>,
                    ghost start: seq<Driver>, ghost was: seq<Driver>, ghost marks: seq<bool>, ghost read: seq<bool>,
                    ghost raw0: seq<seq<RawEvent>>, ghost raw: seq<seq<RawEvent>>)
      returns (nbEvents: nat, count: nat, ghost raw': seq<seq<RawEvent>>, ghost read': seq<bool>)
      requires i < NUM_SENSOR_DRIVERS == |batches| && 0 < room && done + room <= data.Length
      requires InOrder(data, done, start, raw) && DrainedBelow(mSensors, i)
      requires PassUpto(was, marks, mSensors, mRevents, read, raw0, raw, batches, i)
      modifies this, data
      ensures InOrder(data, nbEvents, start, raw')
      ensures nbEvents + count == done + room && nbEvents >= done
      ensures count > 0 ==> DrainedBelow(mSensors, i + 1)
      ensures PassUpto(was, marks, mSensors, mRevents, read', raw0, raw', batches, i + 1)
    {
      hide InOrder, PassUpto, SamePresent, DrainedBelow;
      OrderMeans(data, done, start, raw);
      PassLengths(was, marks, mSensors, mRevents, read, raw0, raw, batches, i);
      ghost var sensors, revents := mSensors, mRevents;
      read' := read[i := mSensors[i].Present? && mRevents[i]];
      nbEvents, count, raw' := DriverTurn(i, data, done, room, batches[i], start, raw);
      OrderMeans(data, nbEvents, start, raw');
      PassNext(was, marks, sensors, revents, read, raw0, raw, batches, i, mSensors, mRevents);
    }

    // The leftover pass as the next one of a call.
    method NextPass(data: array<SensorEvent>, done: nat, room: nat, rounds: seq<Round>, k: nat,
                    ghost start: seq<Driver>, ghost marks: seq<bool>, capacity: nat, ghost raw: seq<seq<RawEvent>>,
                    ghost passes: seq<Pass>)
      returns (nbEvents: nat, count: nat, ghost raw': seq<seq<RawEvent>>, ghost passes': seq<Pass>)
      requires |passes| == k < |rounds| && |rounds[k].batches| == NUM_SENSOR_DRIVERS && done + room <= data.Length
      requires Drivers(mSensors) && NotStranded(mSensors, mRevents)
      requires Balanced(start, raw, mSensors, data[..done]) && SamePresent(start, mSensors)
      requires ReadsAre(raw, passes, rounds) && Follows(start, marks, capacity, rounds, passes)
      requires Underway(marks, capacity, rounds, passes, mRevents, room)
      modifies this, data
      ensures Drivers(mSensors) && NotStranded(mSensors, mRevents)
      ensures nbEvents + count == done + room && nbEvents >= done && nbEvents <= data.Length
      ensures Balanced(start, raw', mSensors, data[..nbEvents]) && SamePresent(start, mSensors)
      ensures |mSensors| == NUM_SENSOR_DRIVERS && (count > 0 ==> Drained(mSensors))
      ensures |passes'| == |passes| + 1 && passes'[|passes|].left == count
      ensures ReadsAre(raw', passes', rounds) && Follows(start, marks, capacity, rounds, passes')
    {
      hide Drivers, NotStranded, Balanced, Drained, ReadsAre, Follows, Underway, ReadsInOrder;
      hide SamePresent, InOrder, AddsReads;
      OrderMeans(data, done, start, raw);
      ghost var was, pass := mSensors, Pass([], 0, [], 0);
      nbEvents, count, raw', pass := LeftoverPass(data, done, room, rounds[k].batches, start, raw);
      passes' := passes + [pass];
      OrderMeans(data, nbEvents, start, raw');
      SameFor(start, was, mSensors);
      PassDone(start, marks, capacity, rounds, passes, raw, raw', was, pass);
    }

    // `rounds` scripts the kernel. The result is what pollEvents returns, or StillPolling
    // if it has not returned when the script ends; `stored` events are then in `data`.
    method PollEvents(data: array<SensorEvent>, capacity: nat, rounds: seq<Round>)
      returns (r: Return, ghost stored: nat, ghost raw: seq<seq<RawEvent>>, ghost atPoll: seq<Snapshot>,
               ghost passes: seq<Pass>)
      requires capacity <= data.Length
      requires forall k :: 0 <= k < |rounds| ==> |rounds[k].batches| == NUM_SENSOR_DRIVERS
      requires forall k :: 0 <= k < |rounds| && rounds[k].poll.Polled? ==> |rounds[k].poll.ready| == NUM_SENSOR_DRIVERS
      requires Drivers(mSensors) && NotStranded(mSensors, mRevents)
      modifies this, data
      ensures Drivers(mSensors) && NotStranded(mSensors, mRevents)
      ensures PollsInOrder(atPoll, capacity)
      ensures stored <= capacity && Balanced(old(mSensors), raw, mSensors, data[..stored])
      ensures r.Returned? ==> r.nbEvents == stored && (stored < capacity ==> Drained(mSensors))
      ensures Follows(old(mSensors), old(mRevents), capacity, rounds, passes) && ReadsAre(raw, passes, rounds)
      ensures passes != [] ==> stored + passes[|passes| - 1].left == capacity
      ensures passes == [] ==> r == StillPolling && rounds == []
      ensures passes != [] ==>
                var last, p := passes[|passes| - 1], rounds[|passes| - 1].poll;
                match r
                case Returned(_) => last.left == 0 || (p.Polled? && !Reports(p))
                case Failed(errno) => last.left > 0 && p == PollFailed(errno)
                case StillPolling => |passes| == |rounds| && last.left > 0 && Reports(p)
    {
      assert |mSensors| == NUM_SENSOR_DRIVERS && data[..0] == [];
      hide Drivers, NotStranded, Balanced, Drained, ReadsAre, Follows, Underway, SamePresent, PollsInOrder, CountTrue;
      CallStart(mSensors, mRevents, capacity, rounds);
      var nbEvents, count: nat, n := 0, capacity, 0;
      stored, raw, atPoll, passes := 0, seq(NUM_SENSOR_DRIVERS, _ => []), [], [];
      for k := 0 to |rounds|
        invariant Drivers(mSensors) && NotStranded(mSensors, mRevents) && |mSensors| == NUM_SENSOR_DRIVERS
        invariant nbEvents + count == capacity && stored == nbEvents
        invariant PollsInOrder(atPoll, capacity)
        invariant Balanced(old(mSensors), raw, mSensors, data[..stored])
        invariant |passes| == k && ReadsAre(raw, passes, rounds)
        invariant Follows(old(mSensors), old(mRevents), capacity, rounds, passes)
        invariant SamePresent(old(mSensors), mSensors)
        invariant Underway(old(mRevents), capacity, rounds, passes, mRevents, count)
        invariant k > 0 ==> passes[k - 1].left == count > 0 && Reports(rounds[k - 1].poll)
      {
        nbEvents, count, raw, passes :=
          NextPass(data, nbEvents, count, rounds, k, old(mSensors), old(mRevents), capacity, raw, passes);
        stored := nbEvents;
        if count > 0 {
          AddPoll(atPoll, capacity, mSensors, mRevents, nbEvents, count);
          atPoll := atPoll + [Snapshot(mSensors, mRevents, nbEvents, count)];
          match rounds[k].poll {
            case PollFailed(errno) =>
              return Failed(errno), stored, raw, atPoll, passes;
            case Polled(ready, wake) =>
              AfterPoll(old(mRevents), capacity, rounds, passes, mSensors, ready, wake, count);
              n := CountTrue(ready + [wake]);
              mRevents, mWakeRevents := ready, false;   // a pending wake-up byte is read and its bit cleared
          }
        }
        if n == 0 || count == 0 {
          return Returned(nbEvents), stored, raw, atPoll, passes;
        }
      }
      return StillPolling, stored, raw, atPoll, passes;
    }
  }
}
