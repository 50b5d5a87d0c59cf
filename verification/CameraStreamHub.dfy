// The stream hub (hardware/libcamera/BaseCameraAdapter.cpp): subscriptions, dispatch and the
// loops over buffers and frame-type masks. A bitmask of frame types is a set of bit positions.
module CameraStreamHub {
  import opened StreamRefCounts

  const NO_ERROR: int := 0
  const BAD_INDEX: int := -75
  const BAD_VALUE: int := -22
  const EINVAL: int := 22

  datatype Cookie = Cookie(id: int)

  // The references of one type held over a set of buffers.
  ghost function Total(buffers: map<Key, Buffer>, t: FrameType): nat
    requires forall k :: k in buffers ==> buffers[k].Consistent()
    decreases |buffers|
  {
    if buffers == map[] then 0
    else
      var k :| k in buffers;
      assert buffers[k].Consistent();
      buffers[k].counts[t] + Total(buffers - {k}, t)
  }

  // The total does not depend on the order of summation.
  lemma {:induction false} TotalTake(buffers: map<Key, Buffer>, t: FrameType, k: Key)
    requires (forall j :: j in buffers ==> buffers[j].Consistent()) && k in buffers
    ensures Total(buffers, t) == buffers[k].counts[t] + Total(buffers - {k}, t)
    decreases |buffers|
  {
    var j :| j in buffers && Total(buffers, t) == buffers[j].counts[t] + Total(buffers - {j}, t);
    if j != k {
      TotalTake(buffers - {j}, t, k);
      TotalTake(buffers - {k}, t, j);
      assert buffers - {j} - {k} == buffers - {k} - {j};
    }
  }

  lemma {:induction false} TotalZero(buffers: map<Key, Buffer>, t: FrameType)
    requires forall k :: k in buffers ==> buffers[k].Consistent() && buffers[k].counts[t] == 0
    ensures Total(buffers, t) == 0
    decreases |buffers|
  {
    if buffers != map[] {
      var k :| k in buffers;
      TotalTake(buffers, t, k);
      TotalZero(buffers - {k}, t);
    }
  }

  function StreamOf(buffers: map<Key, Buffer>, s: StreamType): map<Key, Buffer> {
    map k | k in buffers && k.0 == s :: buffers[k]
  }

  // The total is the sum of the totals of the two streams.
  lemma {:induction false} TotalSplit(buffers: map<Key, Buffer>, t: FrameType)
    requires forall k :: k in buffers ==> buffers[k].Consistent()
    ensures forall s: StreamType, k :: k in StreamOf(buffers, s) ==> StreamOf(buffers, s)[k].Consistent()
    ensures Total(buffers, t) == Total(StreamOf(buffers, 0), t) + Total(StreamOf(buffers, 1), t)
    decreases |buffers|
  {
    hide Total, Buffer.Consistent, StreamOf;
    forall s: StreamType { StreamMembers(buffers, s); }
    if buffers == map[] {
      StreamsOfNone();
      TotalZero(map[], t);
    } else {
      var k :| k in buffers;
      TotalTake(buffers, t, k);
      TotalSplit(buffers - {k}, t);
      StreamsWithout(buffers, k);
      TotalTake(StreamOf(buffers, k.0), t, k);
    }
  }

  lemma StreamsOfNone()
    ensures StreamOf(map[], 0) == map[] && StreamOf(map[], 1) == map[]
  {
  }

  lemma StreamMembers(buffers: map<Key, Buffer>, s: StreamType)
    ensures forall k :: k in StreamOf(buffers, s) <==> k in buffers && k.0 == s
    ensures forall k :: k in StreamOf(buffers, s) ==> StreamOf(buffers, s)[k] == buffers[k]
  {
  }

  lemma StreamsWithout(buffers: map<Key, Buffer>, k: Key)
    ensures StreamOf(buffers - {k}, k.0) == StreamOf(buffers, k.0) - {k}
    ensures StreamOf(buffers - {k}, 1 - k.0) == StreamOf(buffers, 1 - k.0)
  {
  }

  lemma {:induction false} TotalOfSplit(buffers: map<Key, Buffer>, types: set<FrameType>, below: nat)
    requires (forall k :: k in buffers ==> buffers[k].Consistent()) && below <= MAX_FRAME_TYPE
    ensures TotalOf(buffers, types, below)
         == TotalOf(StreamOf(buffers, 0), types, below) + TotalOf(StreamOf(buffers, 1), types, below)
  {
    hide Total, Buffer.Consistent;
    if below > 0 {
      TotalOfSplit(buffers, types, below - 1);
      TotalSplit(buffers, below - 1);
    }
  }

  // References held over a set of types.
  ghost function TotalOf(buffers: map<Key, Buffer>, types: set<FrameType>, below: nat): nat
    requires (forall k :: k in buffers ==> buffers[k].Consistent()) && below <= MAX_FRAME_TYPE
  {
    if below == 0 then 0
    else TotalOf(buffers, types, below - 1) + if below - 1 in types then Total(buffers, below - 1) else 0
  }

  // A mask of one type counts that type, and disjoint masks add up; so a mask counts each of
  // its types once and no other.
  lemma {:induction false} MaskCounts(buffers: map<Key, Buffer>, t: FrameType, a: set<FrameType>, b: set<FrameType>,
                                      below: nat)
    requires (forall k :: k in buffers ==> buffers[k].Consistent()) && below <= MAX_FRAME_TYPE && a !! b
    ensures TotalOf(buffers, {}, below) == 0
    ensures TotalOf(buffers, {t}, below) == if t < below then Total(buffers, t) else 0
    ensures TotalOf(buffers, a + b, below) == TotalOf(buffers, a, below) + TotalOf(buffers, b, below)
    decreases below
  {
    hide Total, Buffer.Consistent;
    if below > 0 {
      MaskCounts(buffers, t, a, b, below - 1);
    }
  }

  // The steps of a dispatch to n subscribers; env[i] is what other code does during the i-th callback.
  function Dispatch(k: Key, t: FrameType, n: nat, env: seq<seq<Step>>): seq<Step>
    requires n <= |env|
  {
    if n == 0 then [] else Dispatch(k, t, n - 1, env) + [Touch(Send, k, t)] + env[n - 1]
  }

  lemma SendOnce(h: Hub, k: Key, t: FrameType)
    requires Valid(h) && k in h.buffers
    ensures var b := h.buffers[k];
            HubStep(h, Touch(Send, k, t)) ==
              h.(buffers := h.buffers[k := Buffer(b.sum + 1, b.counts[t := b.counts[t] + 1])])
  {
  }

  lemma NoStep(h: Hub)
    requires Valid(h)
    ensures Run(h, []) == h
  {
  }

  // With no interference a dispatch adds one reference per subscriber and nothing else.
  lemma {:induction false} DispatchCounts(h: Hub, k: Key, t: FrameType, n: nat, env: seq<seq<Step>>)
    requires Valid(h) && k in h.buffers && n <= |env| && forall i :: 0 <= i < n ==> env[i] == []
    ensures var h' := Run(h, Dispatch(k, t, n, env));
            && h'.fills == h.fills && k in h'.buffers
            && h'.buffers == h.buffers[k := h'.buffers[k]]
            && h'.buffers[k] == Buffer(h.buffers[k].sum + n, h.buffers[k].counts[t := h.buffers[k].counts[t] + n])
  {
    hide HubStep, Run;
    NoStep(h);
    if n == 0 {
      assert h.buffers[k].counts[t := h.buffers[k].counts[t]] == h.buffers[k].counts;
      assert h.buffers[k := h.buffers[k]] == h.buffers;
    } else {
      DispatchCounts(h, k, t, n - 1, env);
      var d := Dispatch(k, t, n - 1, env);
      RunSnoc(h, d, Touch(Send, k, t));
      SendOnce(Run(h, d), k, t);
      assert Dispatch(k, t, n, env) == d + [Touch(Send, k, t)];
    }
  }

  // A reference is added before its callback runs: if every callback returns the frame at
  // once, a buffer that was free is handed back after each one, n times in all.
  lemma {:induction false} SynchronousReturns(h: Hub, k: Key, t: FrameType, n: nat, env: seq<seq<Step>>)
    requires Valid(h) && k in h.buffers && h.buffers[k] == FRESH && n <= |env|
    requires forall i :: 0 <= i < n ==> env[i] == [Touch(Return, k, t)]
    ensures var h' := Run(h, Dispatch(k, t, n, env));
            h'.buffers == h.buffers && h'.fills == h.fills + seq(n, _ => Fill(k, t))
  {
    hide HubStep, Run;
    NoStep(h);
    if n == 0 {
      assert h.fills + seq(0, _ => Fill(k, t)) == h.fills;
    } else {
      SynchronousReturns(h, k, t, n - 1, env);
      var d := Dispatch(k, t, n - 1, env);
      RunSnoc(h, d, Touch(Send, k, t));
      RunSnoc(h, d + [Touch(Send, k, t)], Touch(Return, k, t));
      SendAndReturn(Run(h, d), k, t);
      assert seq(n, _ => Fill(k, t)) == seq(n - 1, _ => Fill(k, t)) + [Fill(k, t)];
    }
  }

  lemma SendAndReturn(h: Hub, k: Key, t: FrameType)
    requires Valid(h) && k in h.buffers && h.buffers[k] == FRESH
    ensures var h1 := HubStep(h, Touch(Send, k, t));
            Valid(h1) && HubStep(h1, Touch(Return, k, t)) == Hub(h.buffers, h.fills + [Fill(k, t)])
  {
    StepKeepsValid(h, Touch(Send, k, t));
    var h1 := HubStep(h, Touch(Send, k, t));
    assert FRESH.counts[t] == 0 && FRESH.counts[t := 1][t := 0] == FRESH.counts;
    assert h.buffers[k := h1.buffers[k]][k := FRESH] == h.buffers;
  }

  class CameraStreamHub {
    var buffers: map<Key, Buffer>                 // mStreams[s].mStreamBuffers, keyed by stream and address
    var mSubscribers: seq<map<Cookie, bool>>      // per frame type: cookie -> callback is set
    var fills: seq<Fill>                          // the fillThisBuffer calls made so far

    ghost predicate Valid()
      reads this
    {
      |mSubscribers| == MAX_FRAME_TYPE && StreamRefCounts.Valid(State())
    }

    ghost function State(): Hub
      reads this
    {
      Hub(buffers, fills)
    }

    constructor ()
      ensures Valid() && State() == Hub(map[], [])
      ensures forall t :: 0 <= t < MAX_FRAME_TYPE ==> mSubscribers[t] == map[]
    {
      buffers, fills, mSubscribers := map[], [], seq(MAX_FRAME_TYPE, _ => map[]);
    }

    method Subscribe(index: nat, callback: bool, cookie: Cookie) returns (ret: int)
      requires Valid()
      modifies this
      ensures Valid() && State() == old(State())
      ensures if index >= MAX_FRAME_TYPE then ret == BAD_INDEX && mSubscribers == old(mSubscribers)
              else ret == NO_ERROR &&
                   mSubscribers == old(mSubscribers)[index := old(mSubscribers)[index][cookie := callback]]
    {
      if index >= MAX_FRAME_TYPE {
        return BAD_INDEX;
      }
      mSubscribers := mSubscribers[index := mSubscribers[index][cookie := callback]];
      ret := NO_ERROR;
    }

    // The locked regions of a buffer, with the refill they may trigger.
    method TouchBuffer(op: Op, k: Key, t: FrameType)
      requires Valid() && k in buffers
      modifies this`buffers, this`fills
      ensures Valid() && State() == HubStep(old(State()), Touch(op, k, t))
    {
      StepKeepsValid(State(), Touch(op, k, t));
      var (b, refill) := Apply(op, buffers[k], t);
      buffers := buffers[k := b];
      if refill {
        fills := fills + [Fill(k, t)];
      }
    }

    // streamType -1 stands for UNKNOWN_STREAM_TYPE: look in the preview stream, then in the image stream.
    method ReturnFrame(addr: Addr, t: FrameType, streamType: int)
      requires Valid() && -1 <= streamType < MAX_STREAM_TYPE
      modifies this`buffers, this`fills
      ensures Valid()
      ensures var key := if streamType >= 0 then (streamType, addr)
                         else if (0, addr) in old(buffers) then (0, addr) else (1, addr);
              State() == HubStep(old(State()), Touch(Return, key, t))
    {
      var key: Key := if streamType >= 0 then (streamType, addr)
                      else if (0, addr) in buffers then (0, addr) else (1, addr);
      if key !in buffers {
        return;
      }
      TouchBuffer(Return, key, t);
    }

    // Clears one type in every buffer of a stream.
    method ClearStream(s: StreamType, t: FrameType) returns (ghost steps: seq<Step>)
      requires Valid()
      modifies this`buffers, this`fills
      ensures Valid() && State() == Run(old(State()), steps)
      ensures forall i :: 0 <= i < |steps| ==> steps[i].Touch? && steps[i] == Touch(ClearType, steps[i].key, t)
      ensures ClearedExcept(buffers, old(buffers), s, t, {})
    {
      hide HubStep, Run, Cleared, Apply, Buffer.Consistent, ClearedExcept;
      steps := [];
      var todo := set k | k in buffers && k.0 == s;
      ghost var h := State();
      NoStep(h);
      ClearStarts(h, s, t, todo);
      while todo != {}
        invariant Valid() && State() == Run(h, steps)
        invariant forall i :: 0 <= i < |steps| ==> steps[i].Touch? && steps[i] == Touch(ClearType, steps[i].key, t)
        invariant ClearedExcept(buffers, old(buffers), s, t, todo)
        invariant forall k :: k in todo ==> k in old(buffers) && k.0 == s
        decreases todo
      {
        var k :| k in todo;
        RunSnoc(h, steps, Touch(ClearType, k, t));
        ClearOneMore(State(), old(buffers), s, t, todo, k);
        TouchBuffer(ClearType, k, t);
        steps := steps + [Touch(ClearType, k, t)];
        todo := todo - {k};
      }
    }

    // Removes a subscriber. When it was the last of its type (or there was none), that type's
    // references are gone from every buffer of every stream; other types keep theirs.
    method Unsubscribe(index: nat, cookie: Cookie) returns (ret: int, ghost steps: seq<Step>)
      requires Valid()
      modifies this
      ensures Valid() && State() == Run(old(State()), steps) && buffers.Keys == old(buffers.Keys)
      ensures index >= MAX_FRAME_TYPE ==> ret == BAD_INDEX && mSubscribers == old(mSubscribers) && steps == []
      ensures index < MAX_FRAME_TYPE ==>
                ret == NO_ERROR && mSubscribers == old(mSubscribers)[index := old(mSubscribers)[index] - {cookie}]
      ensures index < MAX_FRAME_TYPE && mSubscribers[index] != map[] ==> steps == []
      ensures index < MAX_FRAME_TYPE && mSubscribers[index] == map[] ==>
                && (forall k :: k in buffers ==> buffers[k] == Cleared(old(buffers[k]), index))
                && forall s: StreamType :: Total(StreamOf(buffers, s), index) == 0
    {
      steps := [];
      if index >= MAX_FRAME_TYPE {
        return BAD_INDEX, steps;
      }
      mSubscribers := mSubscribers[index := mSubscribers[index] - {cookie}];
      ret := NO_ERROR;
      if mSubscribers[index] == map[] {
        ghost var h := State();
        ghost var first := ClearStream(0, index);
        ghost var second := ClearStream(1, index);
        RunConcat(h, first, second);
        steps := first + second;
        ClearedZero(h.buffers, buffers, index);
        TotalSplit(buffers, index);
      }
    }

    // The references of the given types over the buffers of both streams.
    method GetRefCountByFrameTypes(mask: set<FrameType>) returns (sum: nat)
      requires Valid()
      ensures sum == TotalOf(buffers, mask, MAX_FRAME_TYPE)
    {
      TotalOfSplit(buffers, mask, MAX_FRAME_TYPE);
      sum := GetStreamRefCount(0, mask);
      var second := GetStreamRefCount(1, mask);
      sum := sum + second;
    }

    // The bitmask loop over one stream.
    method GetStreamRefCount(s: StreamType, mask: set<FrameType>) returns (sum: nat)
      requires Valid()
      ensures sum == TotalOf(StreamOf(buffers, s), mask, MAX_FRAME_TYPE)
    {
      hide Total, Buffer.Consistent;
      sum := 0;
      var types, index: nat := mask, 0;
      while types != {}
        invariant index <= MAX_FRAME_TYPE && types == set t: FrameType | t in mask && t >= index
        invariant sum == TotalOf(StreamOf(buffers, s), mask, index)
        decreases MAX_FRAME_TYPE - index
      {
        ghost var t :| t in types;
        if index in types {
          var n := SumType(s, index);
          sum := sum + n;
        }
        types := types - {index};
        index := index + 1;
      }
      assert forall t :: t in mask && t >= index ==> t in types;
      TotalOfRest(StreamOf(buffers, s), mask, index);
    }

    method SumType(s: StreamType, t: FrameType) returns (sum: nat)
      requires Valid()
      ensures sum == Total(StreamOf(buffers, s), t)
    {
      sum := 0;
      var rest := StreamOf(buffers, s);
      while rest != map[]
        invariant forall k :: k in rest ==> rest[k].Consistent()
        invariant sum + Total(rest, t) == Total(StreamOf(buffers, s), t)
        decreases |rest|
      {
        var k :| k in rest;
        TotalTake(rest, t, k);
        sum := sum + rest[k].counts[t];
        rest := rest - {k};
      }
    }

    // Dispatch of one frame type to its subscribers: one reference each, then the callback.
    method SendFrame(key: Key, t: FrameType, env: seq<seq<Step>>)
      returns (ret: int, ghost n: nat, ghost steps: seq<Step>)
      requires Valid() && |env| >= |mSubscribers[t]|
      modifies this`buffers, this`fills
      ensures Valid() && State() == Run(old(State()), steps)
      ensures mSubscribers[t] == map[] ==> ret == NO_ERROR && steps == []
      ensures mSubscribers[t] != map[] && key !in old(buffers) ==> ret == BAD_VALUE && steps == []
      ensures mSubscribers[t] != map[] && key in old(buffers) ==>
        if false !in mSubscribers[t].Values
        then ret == NO_ERROR && n == |mSubscribers[t]| && steps == Dispatch(key, t, n, env)
        else ret == -EINVAL && n < |mSubscribers[t]| &&
             steps == Dispatch(key, t, n, env) + [Touch(Send, key, t), Touch(Return, key, t)]
    {
      steps, n := [], 0;
      ret := NO_ERROR;
      if mSubscribers[t] == map[] {
        return;
      }
      if key !in buffers {
        return BAD_VALUE, n, steps;
      }
      var todo: set<Cookie>, i: nat := mSubscribers[t].Keys, 0;
      ghost var h := State();
      while todo != {}
        invariant i + |todo| == |mSubscribers[t]| && todo <= mSubscribers[t].Keys
        invariant forall c :: c in mSubscribers[t] && c !in todo ==> mSubscribers[t][c]
        invariant Valid() && State() == Run(h, steps) && steps == Dispatch(key, t, i, env)
        decreases todo
      {
        var cookie :| cookie in todo;
        hide HubStep, Run, Apply, Buffer.Consistent, Total;
        todo := todo - {cookie};
        Perform(Touch(Send, key, t));
        RunSnoc(h, steps, Touch(Send, key, t));
        if !mSubscribers[t][cookie] {
          Perform(Touch(Return, key, t));
          RunSnoc(h, steps + [Touch(Send, key, t)], Touch(Return, key, t));
          assert steps + [Touch(Send, key, t), Touch(Return, key, t)]
              == steps + [Touch(Send, key, t)] + [Touch(Return, key, t)];
          steps := steps + [Touch(Send, key, t), Touch(Return, key, t)];
          return -EINVAL, i, steps;
        }
        PerformAll(env[i]);
        RunConcat(h, steps + [Touch(Send, key, t)], env[i]);
        steps := steps + [Touch(Send, key, t)] + env[i];
        i := i + 1;
      }
      n := i;
    }

    // One step of any kind, by this thread or another.
    method Perform(step: Step)
      requires Valid()
      modifies this`buffers, this`fills
      ensures Valid() && State() == HubStep(old(State()), step)
    {
      StepKeepsValid(State(), step);
      match step {
        case Touch(op, k, t) =>
          if k in buffers {
            TouchBuffer(op, k, t);
          }
        case Add(k) => buffers := buffers[k := FRESH];
        case AddLent(k, t) => buffers := buffers[k := Init(FRESH, t, 1)];
        case RemoveAll(s) => buffers := map k | k in buffers && k.0 != s :: buffers[k];
      }
    }

    method PerformAll(steps: seq<Step>)
      requires Valid()
      modifies this`buffers, this`fills
      ensures Valid() && State() == Run(old(State()), steps)
    {
      for i := 0 to |steps|
        invariant Valid() && State() == Run(old(State()), steps[..i])
      {
        Perform(steps[i]);
        RunSnoc(old(State()), steps[..i], steps[i]);
        assert steps[..i] + [steps[i]] == steps[..i + 1];
      }
      assert steps[..|steps|] == steps;
    }

    // The buffer half of CAMERA_USE_BUFFERS_*: the stream's buffers are replaced; those that
    // cannot be queued start with one reference of type t.
    method UseBuffers(s: StreamType, addrs: seq<Addr>, maxQueueable: nat, t: FrameType) returns (ghost steps: seq<Step>)
      requires Valid() && maxQueueable <= |addrs|
      modifies this`buffers, this`fills
      ensures Valid() && State() == Run(old(State()), steps) && fills == old(fills)
      ensures Loaded(buffers, old(buffers), s, addrs, maxQueueable, t)
    {
      hide HubStep, Run, Init, Apply;
      ghost var h := State();
      steps := [RemoveAll(s)];
      OneStep(h, RemoveAll(s));
      LoadNone(h, s, maxQueueable, t);
      Perform(RemoveAll(s));
      for i := 0 to |addrs|
        invariant Valid() && State() == Run(h, steps) && fills == old(fills)
        invariant Loaded(buffers, old(buffers), s, addrs[..i], maxQueueable, t)
      {
        var step := if i < maxQueueable then Add((s, addrs[i])) else AddLent((s, addrs[i]), t);
        LoadOne(State(), old(buffers), s, addrs[..i], addrs[i], maxQueueable, t, step);
        Perform(step);
        RunSnoc(h, steps, step);
        steps := steps + [step];
        assert addrs[..i + 1] == addrs[..i] + [addrs[i]];
      }
      assert addrs[..|addrs|] == addrs;
    }
  }

  // The buffers after a stream was given the buffers `addrs`, the first maxQueueable of them free.
  ghost predicate Loaded(buffers: map<Key, Buffer>, before: map<Key, Buffer>, s: StreamType, addrs: seq<Addr>,
                         maxQueueable: nat, t: FrameType)
  {
    && (forall k :: k in buffers <==> if k.0 == s then k.1 in addrs else k in before)
    && (forall k :: k in buffers ==>
          buffers[k] == if k.0 != s then before[k]
                        else if LentIn(addrs, maxQueueable, k.1) then Init(FRESH, t, 1) else FRESH)
  }

  predicate LentIn(addrs: seq<Addr>, maxQueueable: nat, a: Addr) {
    exists i :: maxQueueable <= i < |addrs| && addrs[i] == a
  }

  lemma LoadNone(h: Hub, s: StreamType, maxQueueable: nat, t: FrameType)
    requires StreamRefCounts.Valid(h)
    ensures Loaded(HubStep(h, RemoveAll(s)).buffers, h.buffers, s, [], maxQueueable, t)
    ensures HubStep(h, RemoveAll(s)).fills == h.fills
  {
  }

  lemma LoadOne(h: Hub, before: map<Key, Buffer>, s: StreamType, addrs: seq<Addr>, a: Addr,
                maxQueueable: nat, t: FrameType, step: Step)
    requires StreamRefCounts.Valid(h) && Loaded(h.buffers, before, s, addrs, maxQueueable, t)
    requires step == if |addrs| < maxQueueable then Add((s, a)) else AddLent((s, a), t)
    ensures Loaded(HubStep(h, step).buffers, before, s, addrs + [a], maxQueueable, t)
    ensures HubStep(h, step).fills == h.fills
  {
    hide Init, LentIn;
    LentMore(addrs, a, maxQueueable);
  }

  lemma LentMore(addrs: seq<Addr>, a: Addr, maxQueueable: nat)
    ensures forall x :: LentIn(addrs + [a], maxQueueable, x) <==>
                        LentIn(addrs, maxQueueable, x) || (x == a && |addrs| >= maxQueueable)
    ensures |addrs| <= maxQueueable ==> forall x :: !LentIn(addrs, maxQueueable, x)
  {
    var more := addrs + [a];
    forall x
      ensures LentIn(more, maxQueueable, x) <==>
              LentIn(addrs, maxQueueable, x) || (x == a && |addrs| >= maxQueueable)
    {
      if LentIn(addrs, maxQueueable, x) {
        var i :| maxQueueable <= i < |addrs| && addrs[i] == x;
        assert more[i] == x;
      }
      if x == a && |addrs| >= maxQueueable {
        assert more[|addrs|] == a;
      }
    }
  }

  // A buffer with one type's references gone.
  function Cleared(b: Buffer, t: FrameType): Buffer {
    if |b.counts| == MAX_FRAME_TYPE && b.counts[t] <= b.sum
    then Buffer(b.sum - b.counts[t], b.counts[t := 0]) else b
  }

  lemma ClearedStep(h: Hub, k: Key, t: FrameType)
    requires StreamRefCounts.Valid(h) && k in h.buffers
    ensures HubStep(h, Touch(ClearType, k, t)).buffers == h.buffers[k := Cleared(h.buffers[k], t)]
  {
    SumAtLeast(h.buffers[k].counts, t);
    assert h.buffers[k].counts[t] == 0 ==> h.buffers[k].counts[t := 0] == h.buffers[k].counts;
  }

  // A clearing pass over one stream with some buffers still to do.
  ghost predicate ClearedExcept(now: map<Key, Buffer>, before: map<Key, Buffer>, s: StreamType, t: FrameType,
                                todo: set<Key>)
  {
    && now.Keys == before.Keys
    && forall k :: k in now ==> now[k] == if k.0 == s && k !in todo then Cleared(before[k], t) else before[k]
  }

  lemma ClearStarts(h: Hub, s: StreamType, t: FrameType, todo: set<Key>)
    requires StreamRefCounts.Valid(h) && forall k :: k in h.buffers && k.0 == s ==> k in todo
    ensures ClearedExcept(h.buffers, h.buffers, s, t, todo)
  {
  }

  lemma ClearOneMore(h: Hub, before: map<Key, Buffer>, s: StreamType, t: FrameType, todo: set<Key>, k: Key)
    requires StreamRefCounts.Valid(h) && ClearedExcept(h.buffers, before, s, t, todo)
    requires k in todo && k in before && k.0 == s
    ensures k in h.buffers && ClearedExcept(HubStep(h, Touch(ClearType, k, t)).buffers, before, s, t, todo - {k})
  {
    hide HubStep, Cleared;
    ClearedStep(h, k, t);
  }

  lemma ClearedZero(before: map<Key, Buffer>, after: map<Key, Buffer>, t: FrameType)
    requires before.Keys == after.Keys
    requires forall k :: k in before ==> before[k].Consistent() && after[k].Consistent()
    requires forall k :: k in before ==> after[k] == Cleared(before[k], t)
    ensures Total(after, t) == 0
  {
    forall k | k in after ensures after[k].counts[t] == 0 {
      SumAtLeast(before[k].counts, t);
    }
    TotalZero(after, t);
  }

  lemma {:induction false} TotalOfRest(buffers: map<Key, Buffer>, types: set<FrameType>, below: nat)
    requires (forall k :: k in buffers ==> buffers[k].Consistent()) && below <= MAX_FRAME_TYPE
    requires forall t :: t in types ==> t < below
    ensures TotalOf(buffers, types, MAX_FRAME_TYPE) == TotalOf(buffers, types, below)
    decreases MAX_FRAME_TYPE - below
  {
    if below < MAX_FRAME_TYPE {
      TotalOfRest(buffers, types, below + 1);
    }
  }
}
