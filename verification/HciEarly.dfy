// The patch transfer with each send split into its transmission and the bookkeeping that
// follows it (hardware/bluetooth/mtk6622/radiomod.c). A completion may be handled in between.
module HciEarly {
  import opened FixedWidth
  import opened HciPatch

  // An accepted packet: its kind, and the part of the patch data its payload was read from.
  datatype Send = Send(kind: byte, offset: nat, size: nat)

  // What a sender still has to do: advance patch_len and patch_offset by n, or, for an END
  // sent by the handler, clear patch_len and set fPatchDone.
  datatype Book = Advance(n: nat) | Finish

  // patch_len and patch_offset are 32-bit; packets are numbered in the order of transmission.
  datatype Race = Race(
    len: u32, offset: u32, done: bool,
    sent: seq<Send>,
    owed: map<nat, Book>,       // packets whose bookkeeping is still to come
    unanswered: set<nat>)       // packets whose completion has not been handled

  function Min(a: nat, b: nat): nat { if a <= b then a else b }

  // GORMcmd_HCC_WritePatch up to the transmission of the first packet.
  function Start(size: u32): Race {
    var n := Min(size, CHUNK);
    Race(size, 0, size < CHUNK, [Send(if size < CHUNK then END else START, 0, n)], map[0 := Advance(n)], {0})
  }

  // `sends`: the handler gets a buffer and transmit takes the packet.
  datatype Step = Bookkeep(i: nat) | Complete(i: nat, good: bool, sends: bool)

  predicate Enabled(s: Race, step: Step) {
    match step
    case Bookkeep(i) => i in s.owed
    case Complete(i, _, _) => i in s.unanswered
  }

  function Next(s: Race, step: Step): Race
    requires Enabled(s, step)
  {
    match step
    case Bookkeep(i) =>
      var rest := s.(owed := s.owed - {i});
      (match s.owed[i]
       case Advance(n) => rest.(len := (s.len - n) % U32, offset := (s.offset + n) % U32)
       case Finish => rest.(len := 0, done := true))
    case Complete(i, good, sends) =>
      var rest, k := s.(unanswered := s.unanswered - {i}), |s.sent|;
      if !good || (s.len == 0 && s.done) || !sends then rest.(done := false)
      else if s.len >= CHUNK then
        rest.(sent := s.sent + [Send(CONTINUE, s.offset, CHUNK)], owed := s.owed[k := Advance(CHUNK)],
              unanswered := rest.unanswered + {k})
      else
        rest.(sent := s.sent + [Send(END, s.offset, s.len)], owed := s.owed[k := Finish],
              unanswered := rest.unanswered + {k})
  }

  // A step that is not possible at the time does nothing.
  function Run(size: u32, steps: seq<Step>): Race {
    if steps == [] then Start(size)
    else
      var s, step := Run(size, steps[..|steps| - 1]), steps[|steps| - 1];
      if Enabled(s, step) then Next(s, step) else s
  }

  // A good completion that sends on is handled before the bookkeeping of the packet it answers.
  predicate Early(s: Race, step: Step) {
    step.Complete? && Enabled(s, step) && step.good && step.sends && step.i in s.owed
  }

  predicate Timely(size: u32, steps: seq<Step>) {
    steps == [] ||
    (Timely(size, steps[..|steps| - 1]) && !Early(Run(size, steps[..|steps| - 1]), steps[|steps| - 1]))
  }

  // Packet k carries the image from 240 * k on.
  ghost predicate InOrder(sent: seq<Send>) {
    forall k :: 0 <= k < |sent| ==> sent[k].offset == CHUNK * k
  }

  // ----- Timely runs -----

  function PacketAt(size: nat, k: nat): Send
    requires CHUNK * k <= size
  {
    var rest := size - CHUNK * k;
    Send(if rest < CHUNK then END else if k == 0 then START else CONTINUE, CHUNK * k, Min(rest, CHUNK))
  }

  // The state while packet m, the last one, is unanswered.
  ghost predicate Tracks(size: nat, s: Race, m: nat)
    requires CHUNK * m <= size
  {
    var rest := size - CHUNK * m;
    if m in s.owed then
      && s.len == rest && s.offset == CHUNK * m && s.done == (m == 0 && size < CHUNK)
      && s.owed[m] == (if m > 0 && rest < CHUNK then Finish else Advance(Min(rest, CHUNK)))
    else if rest >= CHUNK then s.len == rest - CHUNK && s.offset == CHUNK * (m + 1) && !s.done
    else s.len == 0 && s.done
  }

  ghost predicate Orderly(size: nat, s: Race) {
    var m := |s.sent| - 1;
    && 0 <= m && CHUNK * m <= size
    && (forall k :: 0 <= k <= m ==> s.sent[k] == PacketAt(size, k))
    && (forall i :: i in s.unanswered || i in s.owed ==> i == m)
    && (m in s.unanswered ==> Tracks(size, s, m))
  }

  lemma OrderlyStart(size: u32)
    requires size > 0
    ensures Orderly(size, Start(size))
  {
  }

  lemma BookkeepOrderly(size: u32, s: Race, i: nat)
    requires Orderly(size, s) && i in s.owed
    ensures Orderly(size, Next(s, Bookkeep(i)))
  {
  }

  lemma CompleteOrderly(size: u32, s: Race, step: Step)
    requires size > 0 && Orderly(size, s) && step.Complete? && Enabled(s, step) && !Early(s, step)
    ensures Orderly(size, Next(s, step))
  {
  }

  // What an early completion does to an orderly state: the packet just sent goes out again.
  lemma EarlyCompletionRepeats(size: u32, s: Race, step: Step)
    requires size > 0 && Orderly(size, s) && Early(s, step)
    ensures var m, s' := |s.sent| - 1, Next(s, step);
      && step.i == m && |s'.sent| == m + 2 && s.sent <= s'.sent
      && s'.sent[m + 1].offset == s.sent[m].offset == CHUNK * m && s'.sent[m + 1].size == s.sent[m].size
  {
  }

  lemma SentGrows(s: Race, step: Step)
    requires Enabled(s, step)
    ensures s.sent <= Next(s, step).sent
  {
  }

  // Packet k carries offset 240 * k for every k if and only if no good completion is handled
  // before the bookkeeping of the packet it answers. Until then the state is orderly.
  lemma {:induction false} InOrderIffTimely(size: u32, steps: seq<Step>)
    requires size > 0
    ensures InOrder(Run(size, steps).sent) <==> Timely(size, steps)
    ensures Timely(size, steps) ==> Orderly(size, Run(size, steps))
  {
    if steps == [] {
      OrderlyStart(size);
    } else {
      hide Orderly, Next, Start;
      var init, step := steps[..|steps| - 1], steps[|steps| - 1];
      var s := Run(size, init);
      InOrderIffTimely(size, init);
      if Enabled(s, step) {
        SentGrows(s, step);
        if Timely(size, init) {
          StepOrder(size, s, step);
        } else {
          StaysOut(s.sent, Next(s, step).sent);
        }
      }
    }
  }

  lemma StepOrder(size: u32, s: Race, step: Step)
    requires size > 0 && Orderly(size, s) && Enabled(s, step)
    ensures InOrder(Next(s, step).sent) <==> !Early(s, step)
    ensures !Early(s, step) ==> Orderly(size, Next(s, step))
  {
    hide Next;
    if Early(s, step) {
      EarlyCompletionRepeats(size, s, step);
      assert Next(s, step).sent[|s.sent|].offset != CHUNK * |s.sent|;
    } else if step.Complete? {
      CompleteOrderly(size, s, step);
    } else {
      BookkeepOrderly(size, s, step.i);
    }
  }

  lemma StaysOut(sent: seq<Send>, more: seq<Send>)
    requires sent <= more && !InOrder(sent)
    ensures !InOrder(more)
  {
    var k :| 0 <= k < |sent| && sent[k].offset != CHUNK * k;
    assert more[k] == sent[k];
  }

  // ----- A timely run is the transfer -----

  function Rendered(image: seq<byte>, p: Send): seq<byte>
    requires p.offset + p.size <= |image| && p.size <= CHUNK
  {
    Packet(p.kind, image[p.offset..p.offset + p.size])
  }

  lemma NextPacket(size: nat, k: nat)
    requires 0 < k && CHUNK * k <= size
    ensures var p, q := PacketAt(size, k), PacketAt(size - CHUNK, k - 1);
            p.offset == CHUNK + q.offset && p.size == q.size && p.kind == if q.kind == START then CONTINUE else q.kind
    ensures PacketAt(size, k).kind != START && PacketAt(size, k).offset + PacketAt(size, k).size <= size
  {
  }

  lemma Behind(s: seq<byte>, from: nat, n: nat)
    requires CHUNK + from + n <= |s|
    ensures s[CHUNK..][from..from + n] == s[CHUNK + from..CHUNK + from + n]
  {
  }

  lemma {:induction false} TailAt(rest: seq<byte>, k: nat)
    requires CHUNK * k <= |rest|
    ensures k < |Tail(rest)|
    ensures var p := PacketAt(|rest|, k);
            Tail(rest)[k] == Packet(if p.kind == START then CONTINUE else p.kind, rest[p.offset..p.offset + p.size])
    decreases k
  {
    hide Packet, PacketAt;
    if k == 0 {
      TailFirst(rest);
    } else {
      NextPacket(|rest|, k);
      TailAt(rest[CHUNK..], k - 1);
      Behind(rest, PacketAt(|rest| - CHUNK, k - 1).offset, PacketAt(|rest|, k).size);
    }
  }

  lemma TailFirst(rest: seq<byte>)
    ensures var p := PacketAt(|rest|, 0);
            Tail(rest)[0] == Packet(if p.kind == START then CONTINUE else p.kind, rest[p.offset..p.offset + p.size])
  {
    hide Packet;
    assert rest[0..|rest|] == rest;
  }

  lemma TransferAt(image: seq<byte>, k: nat)
    requires CHUNK * k <= |image|
    ensures k < |Transfer(image)| && Transfer(image)[k] == Rendered(image, PacketAt(|image|, k))
  {
    hide Packet, Tail;
    if k == 0 {
      assert image[0..|image|] == image;
    } else {
      hide PacketAt;
      NextPacket(|image|, k);
      TailAt(image[CHUNK..], k - 1);
      Behind(image, PacketAt(|image| - CHUNK, k - 1).offset, PacketAt(|image|, k).size);
    }
  }

  // In a timely run every payload is read inside the image, and the packets sent are those of
  // the transfer, from the first on.
  lemma TimelyIsTransfer(image: seq<byte>, steps: seq<Step>)
    requires 0 < |image| < U32 && Timely(|image|, steps)
    ensures var sent := Run(|image|, steps).sent;
      forall k :: 0 <= k < |sent| ==>
        && sent[k].offset + sent[k].size <= |image| && sent[k].size <= CHUNK
        && k < |Transfer(image)| && Rendered(image, sent[k]) == Transfer(image)[k]
  {
    hide Run, Transfer, Rendered, Timely, Tracks;
    InOrderIffTimely(|image|, steps);
    var sent := Run(|image|, steps).sent;
    forall k | 0 <= k < |sent|
      ensures sent[k].offset + sent[k].size <= |image| && sent[k].size <= CHUNK
      ensures k < |Transfer(image)| && Rendered(image, sent[k]) == Transfer(image)[k]
    {
      TransferAt(image, k);
    }
  }

  // ----- What early completions can lead to -----

  lemma EarlySends(size: u32, s: Race, m: nat)
    requires Orderly(size, s) && |s.sent| == m + 1 && m in s.owed && m in s.unanswered && size - CHUNK * m >= CHUNK
    ensures var s1 := Next(s, Complete(m, true, true));
      && m in s1.owed && s1.owed[m] == Advance(CHUNK) && m + 1 in s1.owed && s1.owed[m + 1] == Advance(CHUNK)
      && s1.len == size - CHUNK * m && s1.offset == CHUNK * m && m + 1 in s1.unanswered && |s1.sent| == m + 2
  {
  }

  lemma Subtract(s: Race, i: nat)
    requires i in s.owed && s.owed[i] == Advance(CHUNK) && s.offset + CHUNK < U32
    ensures Next(s, Bookkeep(i)) == s.(owed := s.owed - {i}, offset := s.offset + CHUNK,
                                       len := if s.len < CHUNK then U32 + s.len - CHUNK else s.len - CHUNK)
  {
  }

  // Both senders subtract: patch_len wraps exactly if less than two chunks remained.
  lemma BothSubtract(size: u32, s: Race, m: nat) returns (s1: Race, s2: Race, s3: Race)
    requires Orderly(size, s) && |s.sent| == m + 1 && m in s.owed && m in s.unanswered
    requires size - CHUNK * m >= CHUNK && size + CHUNK < U32
    ensures s1 == Next(s, Complete(m, true, true))
    ensures m in s1.owed && s2 == Next(s1, Bookkeep(m))
    ensures m + 1 in s2.owed && s3 == Next(s2, Bookkeep(m + 1))
    ensures var rest := size - CHUNK * m;
            s3.len == if rest < 2 * CHUNK then U32 + rest - 2 * CHUNK else rest - 2 * CHUNK
    ensures s3.offset == CHUNK * (m + 2) && m + 1 in s3.unanswered && |s3.sent| == m + 2
  {
    hide Orderly, Next;
    EarlySends(size, s, m);
    s1 := Next(s, Complete(m, true, true));
    Subtract(s1, m);
    s2 := Next(s1, Bookkeep(m));
    assert s2.len == size - CHUNK * m - CHUNK && s2.offset == CHUNK * m + CHUNK;
    Subtract(s2, m + 1);
    s3 := Next(s2, Bookkeep(m + 1));
  }

  // The handlers keep their books in time: a completion is handled early only while the
  // runner is late with the first packet's bookkeeping.
  predicate OnlyRunnerLate(size: u32, steps: seq<Step>) {
    steps == [] ||
    (OnlyRunnerLate(size, steps[..|steps| - 1]) &&
     (Early(Run(size, steps[..|steps| - 1]), steps[|steps| - 1]) ==> steps[|steps| - 1].i == 0))
  }

  lemma LateSnoc(size: u32, steps: seq<Step>, step: Step)
    requires OnlyRunnerLate(size, steps) && Enabled(Run(size, steps), step)
    requires Early(Run(size, steps), step) ==> step.i == 0
    ensures OnlyRunnerLate(size, steps + [step]) && Run(size, steps + [step]) == Next(Run(size, steps), step)
  {
    assert (steps + [step])[..|steps|] == steps;
  }

  // The runner has not yet kept its books when packet k goes out, every handler has.
  function LateRunner(k: nat): seq<Step>
    requires k > 0
  {
    if k == 1 then [] + [Complete(0, true, true)]
    else LateRunner(k - 1) + [Bookkeep(k - 1)] + [Complete(k - 1, true, true)]
  }

  ghost predicate LateAt(size: u32, s: Race, k: nat)
    requires k > 0 && CHUNK * (k - 1) <= size
  {
    var rest := size - CHUNK * (k - 1);
    && |s.sent| == k + 1 && s.len == rest && s.offset == CHUNK * (k - 1) && s.done == (size < CHUNK)
    && s.unanswered == {k} && s.owed.Keys == {0, k} && s.owed[0] == Advance(Min(size, CHUNK))
    && s.owed[k] == if rest < CHUNK then Finish else Advance(CHUNK)
  }

  lemma LateStart(size: u32)
    requires size > 0
    ensures Enabled(Start(size), Complete(0, true, true)) && LateAt(size, Next(Start(size), Complete(0, true, true)), 1)
  {
  }

  lemma LateBook(size: u32, s: Race, k: nat)
    requires k > 0 && CHUNK * k <= size && LateAt(size, s, k)
    ensures var s1 := Next(s, Bookkeep(k));
      && s1.len == size - CHUNK * k && s1.offset == CHUNK * k && s1.owed == map[0 := s.owed[0]]
      && s1.unanswered == {k} && s1.sent == s.sent && s1.done == s.done
  {
  }

  lemma LateNext(size: u32, s: Race, k: nat)
    requires k > 0 && CHUNK * k <= size && LateAt(size, s, k)
    ensures k in s.owed
    ensures var s1, step := Next(s, Bookkeep(k)), Complete(k, true, true);
            Enabled(s1, step) && !Early(s1, step) && LateAt(size, Next(s1, step), k + 1)
  {
    LateBook(size, s, k);
  }

  lemma {:induction false} LateRunnerReaches(size: u32, k: nat)
    requires size > 0 && k > 0 && CHUNK * (k - 1) <= size
    ensures OnlyRunnerLate(size, LateRunner(k)) && LateAt(size, Run(size, LateRunner(k)), k)
  {
    hide LateAt, Next, Start, OnlyRunnerLate, Enabled, Early;
    if k == 1 {
      LateStart(size);
      NoLate(size);
      LateSnoc(size, [], Complete(0, true, true));
    } else {
      var done, j := LateRunner(k - 1), k - 1;
      LateRunnerReaches(size, j);
      LateNext(size, Run(size, done), j);
      BooksInTime(Run(size, done), j);
      LateSnoc(size, done, Bookkeep(j));
      LateSnoc(size, done + [Bookkeep(j)], Complete(j, true, true));
    }
  }

  lemma NoLate(size: u32)
    ensures OnlyRunnerLate(size, []) && Run(size, []) == Start(size)
  {
  }

  lemma BooksInTime(s: Race, k: nat)
    requires k in s.owed
    ensures Enabled(s, Bookkeep(k)) && !Early(s, Bookkeep(k))
  {
  }

  // The last packet sent was read past the end of the image.
  predicate Overrun(size: nat, sent: seq<Send>) {
    sent != [] && sent[|sent| - 1].offset + sent[|sent| - 1].size > size
  }

  // The END's books are kept, then the runner's: patch_len wraps, and patch_offset is behind
  // the image.
  lemma RunnerCatchesUp(size: u32, s: Race, k: nat)
    requires 0 < size && size + CHUNK < U32 && k == size / CHUNK + 1 && LateAt(size, s, k)
    ensures k in s.owed
    ensures var s1 := Next(s, Bookkeep(k));
            0 in s1.owed && s1.len == 0 && s1.done && s1.offset == CHUNK * (k - 1) && s1.owed[0] == s.owed[0]
            && s1.unanswered == {k} && s1.owed.Keys == {0}
  {
  }

  lemma ReadsBehind(size: u32, s1: Race, k: nat)
    requires 0 < size && size + CHUNK < U32 && k == size / CHUNK + 1
    requires 0 in s1.owed && s1.len == 0 && s1.done && s1.offset == CHUNK * (k - 1)
    requires s1.owed[0] == Advance(Min(size, CHUNK)) && s1.unanswered == {k} && s1.owed.Keys == {0}
    ensures var s2, step := Next(s1, Bookkeep(0)), Complete(k, true, true);
            Enabled(s2, step) && !Early(s2, step) && Overrun(size, Next(s2, step).sent)
  {
    var s2 := Next(s1, Bookkeep(0));
    assert s2.len == U32 - Min(size, CHUNK);
    assert s2.offset == CHUNK * (k - 1) + Min(size, CHUNK);
  }

  // Whatever the image, unless it all but fills the address space: if only the runner is late
  // with its bookkeeping of the first packet, and every handler keeps its books in time, some
  // run sends a chunk from behind the end of the image.
  lemma EveryImageCanOverrun(size: u32) returns (steps: seq<Step>)
    requires 0 < size && size + CHUNK < U32
    ensures OnlyRunnerLate(size, steps) && Overrun(size, Run(size, steps).sent) && !Timely(size, steps)
  {
    hide Run, Next, OnlyRunnerLate, Enabled, Early, LateRunner, Overrun, Timely;
    var k := size / CHUNK + 1;
    var done := LateRunner(k);
    LateRunnerReaches(size, k);
    var s := Run(size, done);
    RunnerCatchesUp(size, s, k);
    BooksInTime(s, k);
    LateSnoc(size, done, Bookkeep(k));
    var s1 := Next(s, Bookkeep(k));
    ReadsBehind(size, s1, k);
    BooksInTime(s1, 0);
    LateSnoc(size, done + [Bookkeep(k)], Bookkeep(0));
    LateSnoc(size, done + [Bookkeep(k)] + [Bookkeep(0)], Complete(k, true, true));
    steps := done + [Bookkeep(k)] + [Bookkeep(0)] + [Complete(k, true, true)];
    InOrderIffTimely(size, steps);
    OrderlyStaysInside(size, Run(size, steps));
  }

  lemma OrderlyStaysInside(size: u32, s: Race)
    ensures Orderly(size, s) ==> !Overrun(size, s.sent)
  {
  }
}
