// Per-frame-type reference counts of camera stream buffers
// (hardware/libcamera/BaseCameraAdapter.cpp): they decide when a buffer goes back to the
// camera. Each region the source runs under a buffer lock is one step here.
module StreamRefCounts {

  const MAX_FRAME_TYPE: nat := 5
  const MAX_STREAM_TYPE: nat := 2

  type FrameType = t: nat | t < MAX_FRAME_TYPE
  type StreamType = s: nat | s < MAX_STREAM_TYPE
  type Addr = int

  function Sum(counts: seq<nat>): nat {
    if counts == [] then 0 else counts[0] + Sum(counts[1..])
  }

  lemma {:induction false} SumUpdate(counts: seq<nat>, i: nat, x: nat)
    requires i < |counts|
    ensures Sum(counts[i := x]) == Sum(counts) - counts[i] + x
  {
    if i == 0 {
      assert counts[0 := x][1..] == counts[1..];
    } else {
      assert counts[i := x][1..] == counts[1..][i - 1 := x];
      SumUpdate(counts[1..], i - 1, x);
    }
  }

  lemma {:induction false} SumAtLeast(counts: seq<nat>, i: nat)
    requires i < |counts|
    ensures counts[i] <= Sum(counts)
  {
    if i > 0 {
      SumAtLeast(counts[1..], i - 1);
    }
  }

  // ----- One buffer -----

  datatype Buffer = Buffer(sum: nat, counts: seq<nat>) {
    // mRefCountSum is the sum of the per-type counts.
    ghost predicate Consistent() { |counts| == MAX_FRAME_TYPE && sum == Sum(counts) }
  }

  const FRESH: Buffer := Buffer(0, [0, 0, 0, 0, 0])

  function Inc(b: Buffer, t: FrameType): Buffer
    requires |b.counts| == MAX_FRAME_TYPE
  {
    Buffer(b.sum + 1, b.counts[t := b.counts[t] + 1])
  }

  // decRefCount: the flag says whether the frame is returned to the camera.
  function Dec(b: Buffer, t: FrameType): (Buffer, bool)
    requires b.Consistent()
  {
    SumAtLeast(b.counts, t);
    if b.counts[t] > 0 then
      (Buffer(b.sum - 1, b.counts[t := b.counts[t] - 1]), b.sum - 1 == 0)
    else (b, false)
  }

  // clearRefCount with its two unlocked reads of the sum undisturbed.
  function Clear(b: Buffer, t: FrameType): (Buffer, bool)
    requires b.Consistent()
  {
    SumAtLeast(b.counts, t);
    var b' := if b.counts[t] > 0 then Buffer(b.sum - b.counts[t], b.counts[t := 0]) else b;
    (b', b'.sum == 0 && b.sum > 0)
  }

  function Init(b: Buffer, t: FrameType, n: nat): Buffer
    requires |b.counts| == MAX_FRAME_TYPE
  {
    Buffer(n, b.counts[t := n])
  }

  // initRefCount overwrites the sum, so it is sound exactly on a buffer whose other types
  // have no references; the source calls it on fresh buffers only.
  lemma InitConsistentIff(b: Buffer, t: FrameType, n: nat)
    requires b.Consistent()
    ensures Init(b, t, n).Consistent() <==> b.sum == b.counts[t]
  {
    SumUpdate(b.counts, t, n);
  }

  // ----- The reference model: a buffer is a bag of outstanding references -----

  type Bag = multiset<FrameType>

  ghost predicate Holds(b: Buffer, bag: Bag) {
    b.Consistent() && b.sum == |bag| && forall t: FrameType :: b.counts[t] == bag[t]
  }

  // A buffer is given back to the camera exactly when its last reference goes.
  ghost predicate Refills(before: Bag, after: Bag) { before != multiset{} && after == multiset{} }

  // What the source does to one buffer under its lock.
  datatype Op =
    | Send       // incRefCount, once per subscriber
    | Return     // decRefCount
    | ClearType  // clearRefCount, when the last subscriber of a type leaves

  // The new buffer, and whether it is handed to fillThisBuffer.
  function Apply(op: Op, b: Buffer, t: FrameType): (Buffer, bool)
    requires b.Consistent()
  {
    match op
    case Send => (Inc(b, t), false)
    case Return => Dec(b, t)
    case ClearType => Clear(b, t)
  }

  ghost function ApplyBag(op: Op, bag: Bag, t: FrameType): Bag {
    match op
    case Send => bag + multiset{t}
    case Return => bag - multiset{t}
    case ClearType => bag[t := 0]
  }

  lemma BagSizes(bag: Bag, t: FrameType)
    ensures |bag[t := 0]| == |bag| - bag[t]
    ensures |bag - multiset{t}| == if bag[t] > 0 then |bag| - 1 else |bag|
  {
    if bag[t] == 0 {
      assert bag - multiset{t} == bag;
    }
  }

  lemma SendHolds(b: Buffer, bag: Bag, t: FrameType)
    requires Holds(b, bag)
    ensures Holds(Inc(b, t), bag + multiset{t})
  {
    hide Sum;
    SumUpdate(b.counts, t, b.counts[t] + 1);
  }

  lemma ReturnHolds(b: Buffer, bag: Bag, t: FrameType)
    requires Holds(b, bag)
    ensures Holds(Dec(b, t).0, bag - multiset{t})
    ensures Dec(b, t).1 == Refills(bag, bag - multiset{t})
  {
    hide Sum;
    BagSizes(bag, t);
    if b.counts[t] > 0 {
      SumUpdate(b.counts, t, b.counts[t] - 1);
    }
  }

  lemma ClearHolds(b: Buffer, bag: Bag, t: FrameType)
    requires Holds(b, bag)
    ensures Holds(Clear(b, t).0, bag[t := 0])
    ensures Clear(b, t).1 == Refills(bag, bag[t := 0])
  {
    hide Sum;
    BagSizes(bag, t);
    SumUpdate(b.counts, t, 0);
  }

  // The counts are the bag of outstanding references: the sum is its size, a surplus return
  // changes nothing, and the buffer is handed back exactly when the bag becomes empty.
  lemma ApplyHolds(op: Op, b: Buffer, bag: Bag, t: FrameType)
    requires Holds(b, bag)
    ensures var (b', refill) := Apply(op, b, t);
            Holds(b', ApplyBag(op, bag, t)) && refill == Refills(bag, ApplyBag(op, bag, t))
  {
    hide Inc, Dec, Clear, Holds;
    match op
    case Send => SendHolds(b, bag, t);
    case Return => ReturnHolds(b, bag, t);
    case ClearType => ClearHolds(b, bag, t);
  }

  lemma ApplyConsistent(op: Op, b: Buffer, t: FrameType)
    requires b.Consistent()
    ensures Apply(op, b, t).0.Consistent()
  {
    SumAtLeast(b.counts, t);
    match op
    case Send => SumUpdate(b.counts, t, b.counts[t] + 1);
    case Return => if b.counts[t] > 0 { SumUpdate(b.counts, t, b.counts[t] - 1); }
    case ClearType => SumUpdate(b.counts, t, 0);
  }

  // ----- The streams and their steps -----

  type Key = (StreamType, Addr)

  datatype Fill = Fill(key: Key, frameType: FrameType)

  // The buffers of both streams, and every fillThisBuffer call so far.
  datatype Hub = Hub(buffers: map<Key, Buffer>, fills: seq<Fill>)

  datatype Step =
    | Touch(op: Op, key: Key, frameType: FrameType)
    | Add(key: Key)                           // addFrameBuffer
    | AddLent(key: Key, frameType: FrameType) // addFrameBuffer, then initRefCount to 1
    | RemoveAll(stream: StreamType)           // removeAllFrameBuffer

  ghost predicate Valid(h: Hub) {
    forall k :: k in h.buffers ==> h.buffers[k].Consistent()
  }

  // An address the stream does not know is ignored.
  function HubStep(h: Hub, step: Step): Hub
    requires Valid(h)
  {
    match step
    case Touch(op, k, t) =>
      if k !in h.buffers then h
      else
        var (b, refill) := Apply(op, h.buffers[k], t);
        Hub(h.buffers[k := b], if refill then h.fills + [Fill(k, t)] else h.fills)
    case Add(k) => h.(buffers := h.buffers[k := FRESH])
    case AddLent(k, t) => h.(buffers := h.buffers[k := Init(FRESH, t, 1)])
    case RemoveAll(s) => h.(buffers := map k | k in h.buffers && k.0 != s :: h.buffers[k])
  }

  // The same steps on bags.
  datatype Ledger = Ledger(bags: map<Key, Bag>, fills: seq<Fill>)

  ghost function LedgerStep(l: Ledger, step: Step): Ledger {
    match step
    case Touch(op, k, t) =>
      if k !in l.bags then l
      else
        var bag := ApplyBag(op, l.bags[k], t);
        Ledger(l.bags[k := bag], if Refills(l.bags[k], bag) then l.fills + [Fill(k, t)] else l.fills)
    case Add(k) => l.(bags := l.bags[k := multiset{}])
    case AddLent(k, t) => l.(bags := l.bags[k := multiset{t}])
    case RemoveAll(s) => l.(bags := map k | k in l.bags && k.0 != s :: l.bags[k])
  }

  ghost predicate Refines(h: Hub, l: Ledger) {
    h.buffers.Keys == l.bags.Keys && h.fills == l.fills && forall k :: k in h.buffers ==> Holds(h.buffers[k], l.bags[k])
  }

  lemma FreshHolds(t: FrameType)
    ensures Holds(FRESH, multiset{}) && Holds(Init(FRESH, t, 1), multiset{t})
  {
    SumUpdate(FRESH.counts, t, 1);
  }

  lemma TouchRefines(h: Hub, l: Ledger, op: Op, k: Key, t: FrameType)
    requires Valid(h) && Refines(h, l)
    ensures Refines(HubStep(h, Touch(op, k, t)), LedgerStep(l, Touch(op, k, t)))
  {
    hide Apply, ApplyBag, Holds, Refills;
    if k in h.buffers {
      ApplyHolds(op, h.buffers[k], l.bags[k], t);
    }
  }

  lemma StepRefines(h: Hub, l: Ledger, step: Step)
    requires Valid(h) && Refines(h, l)
    ensures Refines(HubStep(h, step), LedgerStep(l, step))
  {
    hide Apply, ApplyBag, Holds, Refills, Init;
    match step
    case Touch(op, k, t) => TouchRefines(h, l, op, k, t);
    case Add(k) => FreshHolds(0);
    case AddLent(k, t) => FreshHolds(t);
    case RemoveAll(s) =>
  }

  // mRefCountSum stays the sum of the per-type counts in every buffer.
  lemma StepKeepsValid(h: Hub, step: Step)
    requires Valid(h)
    ensures Valid(HubStep(h, step))
  {
    match step
    case Touch(op, k, t) =>
      if k in h.buffers { ApplyConsistent(op, h.buffers[k], t); }
      hide Apply;
    case Add(k) => FreshHolds(0);
    case AddLent(k, t) => FreshHolds(t);
    case RemoveAll(s) =>
  }

  ghost function Run(h: Hub, steps: seq<Step>): (h': Hub)
    requires Valid(h)
    ensures Valid(h')
  {
    if steps == [] then h
    else
      var mid := Run(h, steps[..|steps| - 1]);
      StepKeepsValid(mid, steps[|steps| - 1]);
      HubStep(mid, steps[|steps| - 1])
  }

  ghost function LedgerRun(l: Ledger, steps: seq<Step>): Ledger {
    if steps == [] then l else LedgerStep(LedgerRun(l, steps[..|steps| - 1]), steps[|steps| - 1])
  }

  // Over every run the hub's counts and refills are those of the bags.
  lemma {:induction false} CountsRefineBags(h: Hub, l: Ledger, steps: seq<Step>)
    requires Valid(h) && Refines(h, l)
    ensures Refines(Run(h, steps), LedgerRun(l, steps))
  {
    hide HubStep, LedgerStep, Refines;
    if steps != [] {
      var init := steps[..|steps| - 1];
      CountsRefineBags(h, l, init);
      StepRefines(Run(h, init), LedgerRun(l, init), steps[|steps| - 1]);
    }
  }

  // A step that can hand this buffer back for this frame type: a return or a clearing of it.
  predicate Frees(step: Step, f: Fill) {
    step.Touch? && step.op != Send && step.key == f.key && step.frameType == f.frameType
  }

  // Over every run each fillThisBuffer call is for the buffer and the frame type of a return
  // or a clearing of that buffer.
  lemma {:induction false} FillsHaveSteps(h: Hub, steps: seq<Step>, f: Fill)
    requires Valid(h) && f in Run(h, steps).fills && f !in h.fills
    ensures exists i :: 0 <= i < |steps| && Frees(steps[i], f)
  {
    hide Apply, Buffer.Consistent;
    if steps != [] {
      var init, last := steps[..|steps| - 1], steps[|steps| - 1];
      if f in Run(h, init).fills {
        FillsHaveSteps(h, init, f);
        var i :| 0 <= i < |init| && Frees(init[i], f);
        assert Frees(steps[i], f);
      } else {
        SendFillsNot(Run(h, init), last);
        assert Frees(steps[|steps| - 1], f);
      }
    }
  }

  lemma SendFillsNot(h: Hub, step: Step)
    requires Valid(h)
    ensures step.Touch? && step.op == Send ==> HubStep(h, step).fills == h.fills
  {
  }

  // ----- Every loan ends in one refill -----

  function FillsOf(fills: seq<Fill>, k: Key): nat {
    if fills == [] then 0
    else FillsOf(fills[..|fills| - 1], k) + if fills[|fills| - 1].key == k then 1 else 0
  }

  // References to the buffer are outstanding.
  ghost predicate Out(l: Ledger, k: Key) { k in l.bags && l.bags[k] != multiset{} }

  predicate Replaces(step: Step, k: Key) { (step.Add? || step.AddLent?) && step.key == k }

  // A step that starts a loan, and one that drops the buffer in the middle of a loan.
  ghost predicate Lends(l: Ledger, step: Step, k: Key) {
    Out(LedgerStep(l, step), k) && (!Out(l, k) || Replaces(step, k))
  }

  ghost predicate Drops(l: Ledger, step: Step, k: Key) {
    Out(l, k) && (k !in LedgerStep(l, step).bags || Replaces(step, k))
  }

  ghost function Loans(l: Ledger, steps: seq<Step>, k: Key): nat {
    if steps == [] then 0
    else
      var init := steps[..|steps| - 1];
      Loans(l, init, k) + if Lends(LedgerRun(l, init), steps[|steps| - 1], k) then 1 else 0
  }

  ghost function Dropped(l: Ledger, steps: seq<Step>, k: Key): nat {
    if steps == [] then 0
    else
      var init := steps[..|steps| - 1];
      Dropped(l, init, k) + if Drops(LedgerRun(l, init), steps[|steps| - 1], k) then 1 else 0
  }

  lemma LoanStep(l: Ledger, step: Step, k: Key)
    ensures (if Lends(l, step, k) then 1 else 0) + (if Out(l, k) then 1 else 0) + FillsOf(l.fills, k)
         == (if Drops(l, step, k) then 1 else 0) + (if Out(LedgerStep(l, step), k) then 1 else 0)
            + FillsOf(LedgerStep(l, step).fills, k)
  {
    var l' := LedgerStep(l, step);
    if |l'.fills| > |l.fills| {
      assert l'.fills[..|l'.fills| - 1] == l.fills;
    }
  }

  // Conservation over every run from an empty hub: every loan of a buffer ends in exactly one
  // refill, or with the buffer being dropped, or is still going on.
  lemma {:induction false} EveryLoanEndsOnce(steps: seq<Step>, k: Key)
    ensures var l0 := Ledger(map[], []);
            var l := LedgerRun(l0, steps);
            Loans(l0, steps, k) == FillsOf(l.fills, k) + Dropped(l0, steps, k) + if Out(l, k) then 1 else 0
  {
    hide Lends, Drops, LedgerStep;
    if steps != [] {
      var init := steps[..|steps| - 1];
      EveryLoanEndsOnce(init, k);
      LoanStep(LedgerRun(Ledger(map[], []), init), steps[|steps| - 1], k);
    }
  }

  // ----- clearRefCount reads the sum twice outside the buffer lock -----

  // A step of another thread while a buffer is being cleared; initRefCount is one of its own,
  // since it runs after addFrameBuffer has released the stream lock.
  datatype Slip = Other(step: Step) | InitRef(key: Key, frameType: FrameType)

  // The clearing thread holds the lock of k's stream throughout. Sends, clearings, additions
  // and removals on that stream take it too, so only these can slip in: a return on any
  // buffer, any step on the other stream, and initRefCount.
  predicate Admitted(s: Slip, k: Key) {
    match s
    case InitRef(_, _) => true
    case Other(RemoveAll(stream)) => stream != k.0
    case Other(step) => (step.Touch? && step.op == Return) || step.key.0 != k.0
  }

  predicate AllAdmitted(slips: seq<Slip>, k: Key) {
    forall i :: 0 <= i < |slips| ==> Admitted(slips[i], k)
  }

  predicate InitOn(s: Slip, k: Key) { s.InitRef? && s.key == k }

  // An initRefCount keeps the counts consistent (InitConsistentIff).
  ghost predicate Fits(h: Hub, s: Slip)
    requires Valid(h)
  {
    s.InitRef? && s.key in h.buffers ==> h.buffers[s.key].sum == h.buffers[s.key].counts[s.frameType]
  }

  ghost function SlipStep(h: Hub, s: Slip): (h': Hub)
    requires Valid(h)
    ensures Valid(h')
  {
    match s
    case Other(step) =>
      StepKeepsValid(h, step);
      HubStep(h, step)
    case InitRef(k, t) =>
      if k in h.buffers && Fits(h, s) then
        InitConsistentIff(h.buffers[k], t, 1);
        h.(buffers := h.buffers[k := Init(h.buffers[k], t, 1)])
      else h
  }

  ghost function SlipRun(h: Hub, slips: seq<Slip>): (h': Hub)
    requires Valid(h)
    ensures Valid(h')
  {
    if slips == [] then h else SlipStep(SlipRun(h, slips[..|slips| - 1]), slips[|slips| - 1])
  }

  // Every initRefCount of the schedule finds a buffer on which it keeps the counts consistent.
  ghost predicate Fitting(h: Hub, slips: seq<Slip>)
    requires Valid(h)
  {
    slips == [] ||
    (Fitting(h, slips[..|slips| - 1]) && Fits(SlipRun(h, slips[..|slips| - 1]), slips[|slips| - 1]))
  }

  // What a window can do to the buffer being cleared. Its references are only taken, unless
  // an initRefCount slips in, and it is handed back when a return takes the last one.
  ghost predicate WindowShape(h: Hub, h': Hub, k: Key)
    requires Valid(h) && Valid(h') && k in h.buffers
  {
    && k in h'.buffers && FillsOf(h.fills, k) <= FillsOf(h'.fills, k)
    && (h.buffers[k].sum > 0 && h'.buffers[k].sum == 0 ==> FillsOf(h'.fills, k) > FillsOf(h.fills, k))
  }

  ghost predicate OnlyTakes(h: Hub, h': Hub, k: Key)
    requires Valid(h) && Valid(h') && k in h.buffers && k in h'.buffers
  {
    var n, n' := h.buffers[k].sum, h'.buffers[k].sum;
    n' <= n && FillsOf(h'.fills, k) == FillsOf(h.fills, k) + if n > 0 && n' == 0 then 1 else 0
  }

  lemma FillsSnoc(fills: seq<Fill>, f: Fill, k: Key)
    ensures FillsOf(fills + [f], k) == FillsOf(fills, k) + if f.key == k then 1 else 0
  {
    assert (fills + [f])[..|fills|] == fills;
  }

  lemma TouchShape(h: Hub, op: Op, key: Key, t: FrameType, k: Key)
    requires Valid(h) && k in h.buffers && (op == Return || key != k)
    ensures var h' := HubStep(h, Touch(op, key, t));
            Valid(h') && WindowShape(h, h', k) && OnlyTakes(h, h', k)
  {
    hide FillsOf;
    StepKeepsValid(h, Touch(op, key, t));
    FillsSnoc(h.fills, Fill(key, t), k);
  }

  lemma SlipShape(h: Hub, s: Slip, k: Key)
    requires Valid(h) && k in h.buffers && Admitted(s, k)
    ensures WindowShape(h, SlipStep(h, s), k)
    ensures !InitOn(s, k) ==> OnlyTakes(h, SlipStep(h, s), k)
  {
    hide FillsOf, Buffer.Consistent;
    match s
    case Other(Touch(op, key, t)) => TouchShape(h, op, key, t, k);
    case _ =>
  }

  lemma {:induction false} RunShape(h: Hub, slips: seq<Slip>, k: Key)
    requires Valid(h) && k in h.buffers && AllAdmitted(slips, k)
    ensures WindowShape(h, SlipRun(h, slips), k)
    ensures (forall i :: 0 <= i < |slips| ==> !InitOn(slips[i], k)) ==> OnlyTakes(h, SlipRun(h, slips), k)
  {
    hide SlipStep, FillsOf, Admitted, Buffer.Consistent;
    if slips != [] {
      var init := slips[..|slips| - 1];
      RunShape(h, init, k);
      SlipShape(SlipRun(h, init), slips[|slips| - 1], k);
    }
  }

  // The hub after the locked part.
  ghost function AfterClear(h: Hub, k: Key, t: FrameType): (h': Hub)
    requires Valid(h) && k in h.buffers
    ensures Valid(h')
  {
    ApplyConsistent(ClearType, h.buffers[k], t);
    h.(buffers := h.buffers[k := Apply(ClearType, h.buffers[k], t).0])
  }

  // clearRefCount in three parts, with other threads' steps before and after the locked one:
  // the hub at the second reading, and whether it then calls fillThisBuffer itself.
  ghost function RacyClear(h: Hub, k: Key, t: FrameType, before: seq<Slip>, after: seq<Slip>): (Hub, bool)
    requires Valid(h) && k in h.buffers && AllAdmitted(before, k) && AllAdmitted(after, k)
  {
    RunShape(h, before, k);
    var h2 := AfterClear(SlipRun(h, before), k, t);
    RunShape(h2, after, k);
    var h3 := SlipRun(h2, after);
    (h3, h3.buffers[k].sum == 0 && h.buffers[k].sum > 0)
  }

  // The clearing takes the last reference of the buffer.
  ghost predicate Ends(h: Hub, k: Key, t: FrameType, before: seq<Slip>)
    requires Valid(h) && k in h.buffers && AllAdmitted(before, k)
  {
    RunShape(h, before, k);
    Apply(ClearType, SlipRun(h, before).buffers[k], t).1
  }

  // It hands the buffer back if and only if it took the last reference.
  ghost predicate DecidesRight(h: Hub, k: Key, t: FrameType, before: seq<Slip>, after: seq<Slip>)
    requires Valid(h) && k in h.buffers && AllAdmitted(before, k) && AllAdmitted(after, k)
  {
    RacyClear(h, k, t, before, after).1 == Ends(h, k, t, before)
  }

  lemma ClearShape(h: Hub, k: Key, t: FrameType)
    requires Valid(h) && k in h.buffers
    ensures var h' := AfterClear(h, k, t);
      && h'.fills == h.fills && k in h'.buffers && h'.buffers[k].sum <= h.buffers[k].sum
      && (Apply(ClearType, h.buffers[k], t).1 <==> h.buffers[k].sum > 0 && h'.buffers[k].sum == 0)
  {
    SumAtLeast(h.buffers[k].counts, t);
  }

  // As long as no initRefCount slips in, the decision is right if and only if no return in
  // either window took the buffer's last reference; the loan then has its one refill. If one
  // did, there are two refills. There is never none.
  lemma RightIffNoRefill(h: Hub, k: Key, t: FrameType, before: seq<Slip>, after: seq<Slip>)
    requires Valid(h) && k in h.buffers && AllAdmitted(before, k) && AllAdmitted(after, k)
    requires forall i :: 0 <= i < |before| ==> !InitOn(before[i], k)
    requires forall i :: 0 <= i < |after| ==> !InitOn(after[i], k)
    ensures var (h', fires) := RacyClear(h, k, t, before, after);
      && (DecidesRight(h, k, t, before, after) <==> FillsOf(h'.fills, k) == FillsOf(h.fills, k))
      && (Ends(h, k, t, before) ==> fires)
  {
    hide FillsOf, SlipRun, AfterClear, Apply, Buffer.Consistent;
    RunShape(h, before, k);
    var h1 := SlipRun(h, before);
    ClearShape(h1, k, t);
    RunShape(AfterClear(h1, k, t), after, k);
  }

  // With any admitted steps: a second refill needs a return in a window that took the last
  // reference, and a missing one needs an initRefCount on the buffer in a window.
  lemma WrongNeedsCause(h: Hub, k: Key, t: FrameType, before: seq<Slip>, after: seq<Slip>)
    requires Valid(h) && k in h.buffers && AllAdmitted(before, k) && AllAdmitted(after, k)
    ensures var (h', fires) := RacyClear(h, k, t, before, after);
      && (fires && !Ends(h, k, t, before) ==> FillsOf(h'.fills, k) > FillsOf(h.fills, k))
      && (!fires && Ends(h, k, t, before) ==> exists s :: (s in before || s in after) && InitOn(s, k))
  {
    hide FillsOf, SlipRun, AfterClear, Apply, Buffer.Consistent;
    RunShape(h, before, k);
    var h1 := SlipRun(h, before);
    ClearShape(h1, k, t);
    RunShape(AfterClear(h1, k, t), after, k);
    if forall s :: s in before || s in after ==> !InitOn(s, k) {
      RightIffNoRefill(h, k, t, before, after);
    }
  }

  // ----- Which other threads' steps are harmless -----

  predicate DrawnFrom(slips: seq<Slip>, others: Slip -> bool, k: Key) {
    AllAdmitted(slips, k) && forall i :: 0 <= i < |slips| ==> others(slips[i])
  }

  // The decision is right from every state and under every admitted schedule of such steps.
  ghost predicate AlwaysDecidesRight(k: Key, t: FrameType, others: Slip -> bool) {
    forall h, before, after ::
      && Valid(h) && k in h.buffers && DrawnFrom(before, others, k) && DrawnFrom(after, others, k)
      && FittingClear(h, k, t, before, after)
      ==> DecidesRight(h, k, t, before, after)
  }

  ghost predicate FittingClear(h: Hub, k: Key, t: FrameType, before: seq<Slip>, after: seq<Slip>)
    requires Valid(h) && k in h.buffers && AllAdmitted(before, k)
  {
    RunShape(h, before, k);
    Fitting(h, before) && Fitting(AfterClear(SlipRun(h, before), k, t), after)
  }

  // An admitted step that concerns the buffer: a return of it, or its initRefCount.
  predicate Concerns(s: Slip, k: Key) {
    InitOn(s, k) || (s.Other? && s.step.Touch? && s.step.op == Return && s.step.key == k)
  }

  // The refill decision of clearRefCount is right, whatever the state and the schedule, if and
  // only if none of the other threads' admitted steps concerns the buffer: each single one
  // that does can break it.
  lemma AlwaysRightIffUnconcerned(k: Key, t: FrameType, others: Slip -> bool)
    ensures AlwaysDecidesRight(k, t, others) <==> forall s :: others(s) && Admitted(s, k) ==> !Concerns(s, k)
  {
    hide DecidesRight, FittingClear, Buffer.Consistent;
    if forall s :: others(s) && Admitted(s, k) ==> !Concerns(s, k) {
      forall h, before, after | && Valid(h) && k in h.buffers && DrawnFrom(before, others, k)
                                && DrawnFrom(after, others, k) && FittingClear(h, k, t, before, after)
        ensures DecidesRight(h, k, t, before, after)
      {
        UndisturbedClear(h, k, t, before, after);
      }
    } else {
      var s :| others(s) && Admitted(s, k) && Concerns(s, k);
      var h, before, after := BreakingSchedule(k, t, s);
      assert DrawnFrom(before, others, k) && DrawnFrom(after, others, k);
    }
  }

  lemma {:induction false} UnconcernedRun(h: Hub, slips: seq<Slip>, k: Key)
    requires Valid(h) && k in h.buffers && AllAdmitted(slips, k)
    requires forall i :: 0 <= i < |slips| ==> !Concerns(slips[i], k)
    ensures k in SlipRun(h, slips).buffers && SlipRun(h, slips).buffers[k] == h.buffers[k]
  {
    hide Apply, Buffer.Consistent;
    if slips != [] {
      UnconcernedRun(h, slips[..|slips| - 1], k);
    }
  }

  // If meanwhile nobody touches the buffer, buffer and decision are those of the atomic step.
  lemma UndisturbedClear(h: Hub, k: Key, t: FrameType, before: seq<Slip>, after: seq<Slip>)
    requires Valid(h) && k in h.buffers && AllAdmitted(before, k) && AllAdmitted(after, k)
    requires forall i :: 0 <= i < |before| ==> !Concerns(before[i], k)
    requires forall i :: 0 <= i < |after| ==> !Concerns(after[i], k)
    ensures DecidesRight(h, k, t, before, after)
    ensures var (h', fires) := RacyClear(h, k, t, before, after);
            k in h'.buffers && (h'.buffers[k], fires) == Apply(ClearType, h.buffers[k], t)
  {
    hide SlipRun, Buffer.Consistent;
    UnconcernedRun(h, before, k);
    var h1 := SlipRun(h, before);
    ClearShape(h1, k, t);
    UnconcernedRun(AfterClear(h1, k, t), after, k);
  }

  // For every admitted step that concerns the buffer there is a state, and one of the two
  // windows, in which it alone makes the decision wrong.
  lemma BreakingSchedule(k: Key, t: FrameType, s: Slip) returns (h: Hub, before: seq<Slip>, after: seq<Slip>)
    requires Concerns(s, k)
    ensures Valid(h) && k in h.buffers && AllAdmitted(before, k) && AllAdmitted(after, k)
    ensures FittingClear(h, k, t, before, after) && !DecidesRight(h, k, t, before, after)
    ensures forall i :: 0 <= i < |before| ==> before[i] == s
    ensures forall i :: 0 <= i < |after| ==> after[i] == s
  {
    if s.InitRef? {
      h, before, after := Hub(map[k := Init(FRESH, t, 1)], []), [], [s];
      LateInit(k, t, s.frameType);
    } else {
      h, before, after := Hub(map[k := Init(FRESH, s.step.frameType, 1)], []), [s], [];
      EarlyReturn(k, t, s.step.frameType);
    }
  }

  lemma OneSlip(h: Hub, s: Slip)
    requires Valid(h)
    ensures SlipRun(h, [s]) == SlipStep(h, s) && SlipRun(h, []) == h
    ensures Fitting(h, []) && (Fits(h, s) ==> Fitting(h, [s]))
  {
    assert [s][..0] == [];
  }

  // A return before the locked part takes the last reference and refills; the clearing finds
  // nothing to take but had read a positive sum, so it refills once more.
  lemma EarlyReturn(k: Key, t: FrameType, held: FrameType)
    ensures var h, s := Hub(map[k := Init(FRESH, held, 1)], []), Other(Touch(Return, k, held));
      && Valid(h) && AllAdmitted([s], k) && FittingClear(h, k, t, [s], [])
      && !DecidesRight(h, k, t, [s], [])
      && RacyClear(h, k, t, [s], []).1 && RacyClear(h, k, t, [s], []).0.fills == [Fill(k, held)]
  {
    FreshHolds(held);
    var h, s := Hub(map[k := Init(FRESH, held, 1)], []), Other(Touch(Return, k, held));
    OneSlip(h, s);
    var h1 := SlipStep(h, s);
    assert Init(FRESH, held, 1).counts[held := 0] == FRESH.counts;
    assert h1.buffers[k] == FRESH && FRESH.counts[t] == 0;
    OneSlip(AfterClear(h1, k, t), s);
  }

  // An initRefCount after the locked part hides that the last reference was taken.
  lemma LateInit(k: Key, t: FrameType, u: FrameType)
    ensures var h, s := Hub(map[k := Init(FRESH, t, 1)], []), InitRef(k, u);
      && Valid(h) && AllAdmitted([s], k) && FittingClear(h, k, t, [], [s])
      && !DecidesRight(h, k, t, [], [s])
  {
    FreshHolds(t);
    var h, s := Hub(map[k := Init(FRESH, t, 1)], []), InitRef(k, u);
    OneSlip(h, s);
    var h2 := AfterClear(h, k, t);
    assert Init(FRESH, t, 1).counts[t := 0] == FRESH.counts;
    assert h2.buffers[k] == FRESH && FRESH.counts[u] == 0;
    OneSlip(h2, s);
  }

  // An initRefCount before the locked part: the reference it set is taken at once, but the sum
  // read earlier was 0, so the buffer is never handed back.
  lemma EarlyInit(k: Key, t: FrameType)
    ensures var h, s := Hub(map[k := FRESH], []), InitRef(k, t);
      && Valid(h) && AllAdmitted([s], k) && FittingClear(h, k, t, [s], [])
      && Ends(h, k, t, [s]) && !RacyClear(h, k, t, [s], []).1
      && RacyClear(h, k, t, [s], []).0.fills == [] && RacyClear(h, k, t, [s], []).0.buffers[k].sum == 0
  {
    FreshHolds(t);
    var h, s := Hub(map[k := FRESH], []), InitRef(k, t);
    OneSlip(h, s);
    var h1 := SlipStep(h, s);
    assert h1.buffers[k] == Init(FRESH, t, 1);
    OneSlip(AfterClear(h1, k, t), s);
  }

  // ----- Clearing a whole stream -----

  // The stream keeps its buffers, and no count of theirs has grown.
  ghost predicate CountsFall(h: Hub, h': Hub, s: StreamType)
    requires Valid(h) && Valid(h')
  {
    && (forall k :: k in h'.buffers && k.0 == s ==> k in h.buffers)
    && (forall k :: k in h.buffers && k.0 == s ==> k in h'.buffers)
    && (forall k, u: FrameType :: k in h.buffers && k.0 == s ==> h'.buffers[k].counts[u] <= h.buffers[k].counts[u])
  }

  lemma SlipFalls(h: Hub, slip: Slip, k: Key)
    requires Valid(h) && Admitted(slip, k) && !(slip.InitRef? && slip.key.0 == k.0)
    ensures CountsFall(h, SlipStep(h, slip), k.0)
  {
    hide Sum;
  }

  predicate NoInits(slips: seq<Slip>, s: StreamType) {
    forall i :: 0 <= i < |slips| ==> !(slips[i].InitRef? && slips[i].key.0 == s)
  }

  lemma {:induction false} WindowFalls(h: Hub, slips: seq<Slip>, k: Key)
    requires Valid(h) && AllAdmitted(slips, k) && NoInits(slips, k.0)
    ensures CountsFall(h, SlipRun(h, slips), k.0)
  {
    hide SlipStep, Admitted, Buffer.Consistent;
    if slips != [] {
      var init := slips[..|slips| - 1];
      WindowFalls(h, init, k);
      SlipFalls(SlipRun(h, init), slips[|slips| - 1], k);
      FallsOn(h, SlipRun(h, init), SlipRun(h, slips), k.0);
    }
  }

  lemma FallsOn(a: Hub, b: Hub, c: Hub, s: StreamType)
    requires Valid(a) && Valid(b) && Valid(c) && CountsFall(a, b, s) && CountsFall(b, c, s)
    ensures CountsFall(a, c, s)
  {
    forall k, u: FrameType | k in a.buffers && k.0 == s ensures c.buffers[k].counts[u] <= a.buffers[k].counts[u] {
      assert c.buffers[k].counts[u] <= b.buffers[k].counts[u] <= a.buffers[k].counts[u];
    }
  }

  // clearRefCount of one buffer with the refill it decides on.
  ghost function RacyClearBuffer(h: Hub, k: Key, t: FrameType, before: seq<Slip>, after: seq<Slip>): (h': Hub)
    requires Valid(h) && k in h.buffers && AllAdmitted(before, k) && AllAdmitted(after, k)
    ensures Valid(h')
  {
    var (h', fires) := RacyClear(h, k, t, before, after);
    if fires then h'.(fills := h'.fills + [Fill(k, t)]) else h'
  }

  lemma RacyClearFalls(h: Hub, k: Key, t: FrameType, before: seq<Slip>, after: seq<Slip>)
    requires Valid(h) && k in h.buffers && AllAdmitted(before, k) && AllAdmitted(after, k)
    requires NoInits(before, k.0) && NoInits(after, k.0)
    ensures var h' := RacyClearBuffer(h, k, t, before, after);
            CountsFall(h, h', k.0) && k in h'.buffers && h'.buffers[k].counts[t] == 0
  {
    hide SlipRun, Admitted, Sum;
    WindowFalls(h, before, k);
    RunShape(h, before, k);
    var h1 := SlipRun(h, before);
    var h2 := AfterClear(h1, k, t);
    SumAtLeast(h1.buffers[k].counts, t);
    assert CountsFall(h1, h2, k.0) && h2.buffers[k].counts[t] == 0;
    WindowFalls(h2, after, k);
    var h3 := SlipRun(h2, after);
    FallsOn(h, h1, h2, k.0);
    FallsOn(h, h2, h3, k.0);
  }

  datatype Window = Window(key: Key, before: seq<Slip>, after: seq<Slip>)

  // The buffers of stream s are cleared one after the other; only returns and steps on the
  // other stream slip in.
  predicate PassOver(windows: seq<Window>, s: StreamType) {
    forall i :: 0 <= i < |windows| ==>
      && windows[i].key.0 == s
      && AllAdmitted(windows[i].before, windows[i].key) && AllAdmitted(windows[i].after, windows[i].key)
      && NoInits(windows[i].before, s) && NoInits(windows[i].after, s)
  }

  ghost function ClearPass(h: Hub, t: FrameType, windows: seq<Window>, s: StreamType): (h': Hub)
    requires Valid(h) && PassOver(windows, s) && forall i :: 0 <= i < |windows| ==> windows[i].key in h.buffers
    ensures Valid(h') && CountsFall(h, h', s)
  {
    if windows == [] then h
    else
      var h1, w := ClearPass(h, t, windows[..|windows| - 1], s), windows[|windows| - 1];
      RacyClearFalls(h1, w.key, t, w.before, w.after);
      var h2 := RacyClearBuffer(h1, w.key, t, w.before, w.after);
      FallsOn(h, h1, h2, s);
      h2
  }

  // Whatever slips into the windows of clearRefCount, when the pass over a stream is over the
  // type has no reference left on any of its buffers, and no other count has grown.
  lemma {:induction false} PassClearsType(h: Hub, t: FrameType, windows: seq<Window>, s: StreamType)
    requires Valid(h) && PassOver(windows, s) && forall i :: 0 <= i < |windows| ==> windows[i].key in h.buffers
    ensures var h' := ClearPass(h, t, windows, s);
      && CountsFall(h, h', s)
      && forall i :: 0 <= i < |windows| ==> windows[i].key in h'.buffers && h'.buffers[windows[i].key].counts[t] == 0
  {
    hide RacyClearBuffer, Sum, AllAdmitted, NoInits;
    if windows != [] {
      var init, w := windows[..|windows| - 1], windows[|windows| - 1];
      PassClearsType(h, t, init, s);
      var h1, h2 := ClearPass(h, t, init, s), ClearPass(h, t, windows, s);
      RacyClearFalls(h1, w.key, t, w.before, w.after);
      forall i | 0 <= i < |windows| ensures windows[i].key in h2.buffers && h2.buffers[windows[i].key].counts[t] == 0 {
        if i < |init| {
          assert init[i] == windows[i];
          assert h2.buffers[windows[i].key].counts[t] <= h1.buffers[windows[i].key].counts[t];
        }
      }
    }
  }

  lemma OneStep(h: Hub, step: Step)
    requires Valid(h)
    ensures Run(h, [step]) == HubStep(h, step)
  {
    assert [step][..0] == [];
  }

  lemma RunSnoc(h: Hub, steps: seq<Step>, step: Step)
    requires Valid(h)
    ensures Run(h, steps + [step]) == HubStep(Run(h, steps), step)
  {
    assert (steps + [step])[..|steps|] == steps;
  }

  lemma {:induction false} RunConcat(h: Hub, a: seq<Step>, b: seq<Step>)
    requires Valid(h)
    ensures Run(h, a + b) == Run(Run(h, a), b)
    decreases |b|
  {
    if b == [] {
      assert a + b == a;
    } else {
      var init := b[..|b| - 1];
      assert a + b == (a + init) + [b[|b| - 1]];
      RunSnoc(h, a + init, b[|b| - 1]);
      RunConcat(h, a, init);
    }
  }
}
