// Firmware initialisation end to end (hardware/bluetooth/mtk6622/radiomod.c): the script
// runner, its callbacks and the patch transfer together, in every interleaving. Each callback
// runs after the bookkeeping of the send it answers.
module HciDownload {
  import opened FixedWidth
  import opened HciScript
  import HciPatch
  import opened HciRadio

  // The runner moves on, or the callback of a transmission runs; `granted` and `accepted` are
  // the outcomes of alloc and transmit, should they be called.
  datatype Choice =
    | Runner(granted: bool, accepted: bool)
    | Callback(entry: Entry, e: Event, granted: bool, accepted: bool)

  datatype System = System(m: Machine, patch: HciPatch.Patch)

  function StartOf(image: seq<byte>): System { System(INITIAL, HciPatch.Patch(|image|, 0, false, [])) }

  predicate PatchEntry(script: Script, entry: Entry) {
    entry.Command? && entry.index < |script| && script[entry.index].kind == PatchLoad
  }

  predicate PatchLeft(p: HciPatch.Patch) { !(p.len == 0 && p.done) }

  // The machine step a choice stands for.
  function StepOf(script: Script, image: seq<byte>, s: System, c: Choice): Step {
    match c
    case Callback(entry, e, granted, accepted) =>
      if PatchEntry(script, entry) then Deliver(entry, e, PatchLeft(s.patch), granted && accepted)
      else Deliver(entry, e, false, accepted)
    case Runner(granted, accepted) =>
      match s.m.pc
      case Ready(i) =>
        if i >= |script| then Finish
        else if Skipped(script[i], image != []) then Skip
        else SendCmd(granted, accepted)
      case Sent(_) => Pend
      case Waiting(_) => WakeRunner
      case Exited(_) => Finish
  }

  predicate Can(script: Script, image: seq<byte>, s: System, c: Choice) {
    Enabled(script, image != [], s.m, StepOf(script, image, s, c))
  }

  // What happens to the patch bookkeeping, the runner's clean-up at its exit apart.
  function PatchAfter(script: Script, image: seq<byte>, s: System, c: Choice): HciPatch.Patch
    requires HciPatch.Bounded(image, s.patch) && Can(script, image, s, c)
  {
    match c
    case Callback(entry, e, granted, accepted) =>
      if PatchEntry(script, entry)
      then HciPatch.OnComplete(image, s.patch, Completes(e, WRITE_PATCH), granted, accepted).0 else s.patch
    case Runner(granted, accepted) =>
      if StepOf(script, image, s, c).SendCmd? && script[s.m.pc.i].kind == PatchLoad && granted
      then HciPatch.WritePatch(image, s.patch, accepted).0 else s.patch
  }

  function NextOf(script: Script, image: seq<byte>, s: System, c: Choice): System
    requires HciPatch.Bounded(image, s.patch) && Can(script, image, s, c)
  {
    var m, p := Next(script, image != [], s.m, StepOf(script, image, s, c)), PatchAfter(script, image, s, c);
    // the exiting runner frees the patch data
    System(m, if c.Runner? && m.pc.Exited? then p.(len := 0, offset := 0) else p)
  }

  lemma NextBounded(script: Script, image: seq<byte>, s: System, c: Choice)
    requires HciPatch.Bounded(image, s.patch) && Can(script, image, s, c)
    ensures HciPatch.Bounded(image, NextOf(script, image, s, c).patch)
  {
    hide Next, HciPatch.Packet;
  }

  // A choice that is not possible at the time does nothing.
  function Run(script: Script, image: seq<byte>, cs: seq<Choice>): (s: System)
    ensures HciPatch.Bounded(image, s.patch)
  {
    if cs == [] then StartOf(image)
    else
      var s, c := Run(script, image, cs[..|cs| - 1]), cs[|cs| - 1];
      if Can(script, image, s, c) then NextBounded(script, image, s, c); NextOf(script, image, s, c) else s
  }

  // ----- The patch entry of the script -----

  // The runner has not got past entry x, nor sent it.
  predicate BeforeEntry(pc: Pc, x: nat) {
    (pc.Ready? && pc.i <= x) || ((pc.Sent? || pc.Waiting?) && pc.i < x)
  }

  ghost predicate Reported(m: Machine, x: nat) { exists k :: 0 <= k < |m.finished| && m.finished[k].0 == x }

  // How the transfer stands: untouched before its entry; on track while its packet is in
  // flight; complete once success was reported for it.
  ghost predicate Standing(image: seq<byte>, s: System, x: nat) {
    && s.patch.sent <= HciPatch.Transfer(image)
    && (BeforeEntry(s.m.pc, x) ==> s.patch == StartOf(image).patch)
    && (Command(x) in s.m.inflight ==> HciPatch.OnTrack(image, s.patch) && !Reported(s.m, x))
    && (Reported(s.m, x) ==> s.patch.sent == HciPatch.Transfer(image))
  }

  ghost predicate SystemInv(script: Script, image: seq<byte>, s: System, x: nat) {
    && HciPatch.Bounded(image, s.patch)
    && Inv(script, image != [], s.m)
    && (s.m.pc == Exited(false) || Standing(image, s, x))
  }

  lemma {:induction false} RequiredMembers(script: Script, hasPatch: bool, i: nat, x: nat)
    requires i <= |script|
    ensures x in Required(script, hasPatch, i) <==> x < i && !Skipped(script[x], hasPatch)
  {
    if i > 0 {
      RequiredMembers(script, hasPatch, i - 1, x);
    }
  }

  lemma ReportedIndex(m: Machine, x: nat)
    ensures Reported(m, x) <==> x in Indexes(m.finished)
  {
    if Reported(m, x) {
      var k :| 0 <= k < |m.finished| && m.finished[k].0 == x;
      assert Indexes(m.finished)[k] == x;
    }
  }

  // Before its entry is reached, the patch command is neither in flight nor reported.
  lemma NotYet(script: Script, hasPatch: bool, m: Machine, x: nat)
    requires Inv(script, hasPatch, m) && BeforeEntry(m.pc, x)
    ensures Command(x) !in m.inflight
    ensures m.pc == Ready(x) ==> !Reported(m, x)
  {
    hide AllGood, Indexes, Required;
    ReportedIndex(m, x);
    if m.pc == Ready(x) {
      RequiredMembers(script, hasPatch, x, x);
    }
  }

  lemma AtMostOnce(script: Script, hasPatch: bool, m: Machine, x: nat)
    requires Inv(script, hasPatch, m)
    ensures m.inflight[Command(x)] <= 1
    ensures m.pc == Exited(true) ==> Command(x) !in m.inflight
  {
    hide AllGood, Indexes, Required;
  }

  lemma OtherInflight(script: Script, m: Machine, i: nat, e: Event, more: bool, accepted: bool, x: nat)
    requires i != x && i < |script|
    ensures var m' := OnCommandEvent(script, m, i, e, more, accepted);
            m'.pc == m.pc && m'.inflight[Command(x)] == m.inflight[Command(x)]
  {
    hide Completes;
  }

  lemma OtherFinished(script: Script, m: Machine, i: nat, e: Event, more: bool, accepted: bool)
    requires i < |script|
    ensures var m' := OnCommandEvent(script, m, i, e, more, accepted);
            m'.finished == m.finished || m'.finished == m.finished + [(i, e)]
  {
    hide Completes;
  }

  // A callback of another transmission does not touch the patch command.
  lemma OtherCommand(script: Script, m: Machine, i: nat, e: Event, more: bool, accepted: bool, x: nat)
    requires i != x && i < |script|
    ensures var m' := OnCommandEvent(script, m, i, e, more, accepted);
      && m'.pc == m.pc && m'.inflight[Command(x)] == m.inflight[Command(x)]
      && (Reported(m', x) <==> Reported(m, x))
  {
    hide Reported, OnCommandEvent;
    OtherInflight(script, m, i, e, more, accepted, x);
    OtherFinished(script, m, i, e, more, accepted);
    SameReports(m, OnCommandEvent(script, m, i, e, more, accepted), i, e, x);
  }

  lemma OtherWakeUp(m: Machine, i: nat, e: Event, accepted: bool, x: nat)
    ensures var m' := OnWakeEvent(m, i, e, accepted);
      && m'.pc == m.pc && m'.inflight[Command(x)] == m.inflight[Command(x)]
      && (Reported(m', x) <==> Reported(m, x))
  {
    hide Reported;
    SameReports(m, OnWakeEvent(m, i, e, accepted), x + 1, e, x);
  }

  lemma SameReports(m: Machine, m': Machine, i: nat, e: Event, x: nat)
    requires m'.finished == m.finished || (m'.finished == m.finished + [(i, e)] && i != x)
    ensures Reported(m', x) <==> Reported(m, x)
  {
    if Reported(m, x) {
      var k :| 0 <= k < |m.finished| && m.finished[k].0 == x;
      assert m'.finished[k].0 == x;
    }
  }

  // The patch handler: it sends on, or reports, and success means the image is across.
  lemma PatchCallback(script: Script, image: seq<byte>, s: System, x: nat, e: Event, granted: bool, accepted: bool)
    requires OnlyPatch(script, x) && Standing(image, s, x) && s.m.inflight[Command(x)] == 1
    requires !BeforeEntry(s.m.pc, x)
    ensures var m := OnCommandEvent(script, s.m, x, e, PatchLeft(s.patch), granted && accepted);
      var p := HciPatch.OnComplete(image, s.patch, Completes(e, WRITE_PATCH), granted, accepted).0;
      m.pc == s.m.pc && Standing(image, System(m, p), x)
  {
    hide HciPatch.OnTrack, HciPatch.Transfer, HciPatch.Packet;
    DoneMeansEmpty(image, s.patch);
    var good := Completes(e, WRITE_PATCH);
    var m := OnCommandEvent(script, s.m, x, e, PatchLeft(s.patch), granted && accepted);
    var (p, r) := HciPatch.OnComplete(image, s.patch, good, granted, accepted);
    HciPatch.OnCompleteOnTrack(image, s.patch, good, granted, accepted);
    HciPatch.OnTrackPrefix(image, p);
    if r != HciPatch.Finished(true) {
      assert m.finished == s.m.finished;
      SameReports(s.m, m, x + 1, e, x);
    }
  }

  lemma DoneMeansEmpty(image: seq<byte>, p: HciPatch.Patch)
    requires HciPatch.OnTrack(image, p)
    ensures HciPatch.Bounded(image, p) && (p.done ==> p.len == 0)
  {
  }

  // ----- What every step keeps -----

  lemma SameStanding(image: seq<byte>, s: System, s': System, x: nat)
    requires Standing(image, s, x) && s'.patch == s.patch && (BeforeEntry(s'.m.pc, x) ==> BeforeEntry(s.m.pc, x))
    requires s'.m.inflight[Command(x)] == s.m.inflight[Command(x)]
    requires Reported(s'.m, x) <==> Reported(s.m, x)
    ensures Standing(image, s', x)
  {
    hide HciPatch.OnTrack, HciPatch.Transfer, Reported, BeforeEntry;
  }

  lemma CallbackKeeps(script: Script, image: seq<byte>, s: System, c: Choice, x: nat)
    requires ScriptOk(script) && OnlyPatch(script, x) && c.Callback? && Can(script, image, s, c)
    requires SystemInv(script, image, s, x) && s.m.pc != Exited(false)
    ensures Standing(image, NextOf(script, image, s, c), x)
  {
    hide HciPatch.OnTrack, HciPatch.Transfer, HciPatch.OnComplete, OnCommandEvent, OnWakeEvent, Inv, Standing;
    var hasPatch, s' := image != [], NextOf(script, image, s, c);
    if c.entry == Command(x) {
      AtMostOnce(script, hasPatch, s.m, x);
      if BeforeEntry(s.m.pc, x) {
        NotYet(script, hasPatch, s.m, x);
      }
      PatchCallback(script, image, s, x, c.e, c.granted, c.accepted);
    } else if c.entry.Command? {
      OtherCommand(script, s.m, c.entry.index, c.e, false, c.accepted, x);
      SameStanding(image, s, s', x);
    } else {
      OtherWakeUp(s.m, c.entry.index, c.e, c.accepted, x);
      SameStanding(image, s, s', x);
    }
  }

  lemma SendKeeps(script: Script, image: seq<byte>, s: System, c: Choice, x: nat)
    requires OnlyPatch(script, x) && c == Runner(true, true) && Can(script, image, s, c)
    requires SystemInv(script, image, s, x) && StepOf(script, image, s, c) == SendCmd(true, true)
    ensures Standing(image, NextOf(script, image, s, c), x)
  {
    hide HciPatch.OnTrack, HciPatch.Transfer, HciPatch.WritePatch, Inv;
    var s', i := NextOf(script, image, s, c), s.m.pc.i;
    SameReports(s.m, s'.m, x + 1, Event(0, 0, 0), x);
    if i == x {
      NotYet(script, image != [], s.m, x);
      HciPatch.WritePatchOnTrack(image, true);
      HciPatch.OnTrackPrefix(image, s'.patch);
    } else {
      SameStanding(image, s, s', x);
    }
  }

  lemma RunnerKeeps(script: Script, image: seq<byte>, s: System, c: Choice, x: nat)
    requires OnlyPatch(script, x) && c.Runner? && Can(script, image, s, c)
    requires SystemInv(script, image, s, x) && s.m.pc != Exited(false)
    ensures var s' := NextOf(script, image, s, c); s'.m.pc == Exited(false) || Standing(image, s', x)
  {
    hide HciPatch.OnTrack, HciPatch.Transfer, HciPatch.WritePatch, Inv;
    var s', step := NextOf(script, image, s, c), StepOf(script, image, s, c);
    if step == SendCmd(true, true) {
      SendKeeps(script, image, s, c, x);
    } else if s'.m.pc != Exited(false) {
      SameReports(s.m, s'.m, x + 1, Event(0, 0, 0), x);
      if step == Finish {
        AtMostOnce(script, image != [], s.m, x);
        NothingOut(script, image != [], s.m, x);
      } else {
        SameStanding(image, s, s', x);
      }
    }
  }

  lemma NothingOut(script: Script, hasPatch: bool, m: Machine, x: nat)
    requires Inv(script, hasPatch, m) && m.pc.Ready?
    ensures Command(x) !in m.inflight
  {
    hide AllGood, Indexes, Required;
  }

  lemma ChoiceKeepsInv(script: Script, image: seq<byte>, s: System, c: Choice, x: nat)
    requires ScriptOk(script) && OnlyPatch(script, x) && SystemInv(script, image, s, x) && Can(script, image, s, c)
    ensures SystemInv(script, image, NextOf(script, image, s, c), x)
  {
    hide Inv, Standing, Next, PatchAfter;
    NextBounded(script, image, s, c);
    StepKeepsInv(script, image != [], s.m, StepOf(script, image, s, c));
    if s.m.pc == Exited(false) {
      ExitIsFinal(script, image, s, c);
    } else if c.Runner? {
      RunnerKeeps(script, image, s, c, x);
    } else {
      CallbackKeeps(script, image, s, c, x);
    }
  }

  lemma ExitIsFinal(script: Script, image: seq<byte>, s: System, c: Choice)
    requires s.m.pc.Exited? && Can(script, image, s, c)
    ensures Next(script, image != [], s.m, StepOf(script, image, s, c)).pc == s.m.pc
  {
  }

  lemma {:induction false} RunKeepsSystemInv(script: Script, image: seq<byte>, cs: seq<Choice>, x: nat)
    requires ScriptOk(script) && OnlyPatch(script, x)
    ensures SystemInv(script, image, Run(script, image, cs), x)
  {
    hide SystemInv, NextOf, Can;
    if cs == [] {
      StartKeeps(script, image, x);
    } else {
      RunKeepsSystemInv(script, image, cs[..|cs| - 1], x);
      var s, c := Run(script, image, cs[..|cs| - 1]), cs[|cs| - 1];
      if Can(script, image, s, c) {
        ChoiceKeepsInv(script, image, s, c, x);
      }
    }
  }

  lemma StartKeeps(script: Script, image: seq<byte>, x: nat)
    ensures SystemInv(script, image, StartOf(image), x)
  {
    RunKeepsInvStart(script, image != []);
  }

  lemma RunKeepsInvStart(script: Script, hasPatch: bool)
    ensures Inv(script, hasPatch, INITIAL)
  {
    assert Indexes([]) == [];
  }

  // ----- The results -----

  // Every such run is a run of the script machine, so what holds of those holds here.
  lemma RunIsScriptRun(script: Script, image: seq<byte>, cs: seq<Choice>) returns (steps: seq<Step>)
    ensures Exec(script, image != [], steps) == At(Run(script, image, cs).m)
  {
    steps := [];
    if cs != [] {
      hide Next, Enabled, PatchAfter;
      steps := RunIsScriptRun(script, image, cs[..|cs| - 1]);
      var s, c := Run(script, image, cs[..|cs| - 1]), cs[|cs| - 1];
      if Can(script, image, s, c) {
        ExecSnoc(script, image != [], steps, StepOf(script, image, s, c));
        steps := steps + [StepOf(script, image, s, c)];
      }
    }
  }

  // In every interleaving the host UART changes exactly on an accepting Command Status for
  // 0xFC77, after that command and before any other script command was sent.
  lemma DownloadKeepsHandshake(script: Script, image: seq<byte>, cs: seq<Choice>)
    requires ScriptOk(script)
    ensures Trace(script, Run(script, image, cs).m)
  {
    hide Run, Exec, Trace;
    var steps := RunIsScriptRun(script, image, cs);
    HandshakeOverRuns(script, image != [], steps);
  }

  // In every interleaving, and whatever the controller, the allocator and the transmitter do:
  // if initialisation reports success, the packets of the image have been sent, all of them,
  // in order and nothing else; and until the runner gives up, what has been sent is a prefix.
  lemma SuccessMeansDownloaded(script: Script, image: seq<byte>, cs: seq<Choice>, x: nat)
    requires ScriptOk(script) && OnlyPatch(script, x)
    ensures var s := Run(script, image, cs);
      && (s.m.pc == Exited(true) && image != [] ==>
            s.patch.sent == HciPatch.Transfer(image) && HciPatch.WellFormed(s.patch.sent)
            && HciPatch.Payloads(s.patch.sent) == image)
      && (s.m.pc != Exited(false) ==> s.patch.sent <= HciPatch.Transfer(image))
  {
    RunKeepsSystemInv(script, image, cs, x);
    HciPatch.TransferMeaning(image);
    var s := Run(script, image, cs);
    if s.m.pc == Exited(true) && image != [] {
      RequiredMembers(script, true, |script|, x);
      ReportedIndex(s.m, x);
    }
    hide Run, HciPatch.Transfer, Required, Indexes;
  }

  // Once the runner has gone, the patch data is freed: no callback finds anything left to send.
  lemma {:induction false} ExitedIsCleared(script: Script, image: seq<byte>, cs: seq<Choice>)
    ensures var s := Run(script, image, cs); s.m.pc.Exited? ==> s.patch.len == 0 && s.patch.offset == 0
  {
    hide Run, Can, NextOf;
    if cs == [] {
      assert Run(script, image, cs) == StartOf(image) by { RunStart(script, image); }
    } else {
      var init, c := cs[..|cs| - 1], cs[|cs| - 1];
      ExitedIsCleared(script, image, init);
      RunNext(script, image, cs);
      if Can(script, image, Run(script, image, init), c) {
        ClearedNext(script, image, Run(script, image, init), c);
      }
    }
  }

  lemma RunStart(script: Script, image: seq<byte>)
    ensures Run(script, image, []) == StartOf(image)
  {
  }

  lemma RunNext(script: Script, image: seq<byte>, cs: seq<Choice>)
    requires cs != []
    ensures var s, c := Run(script, image, cs[..|cs| - 1]), cs[|cs| - 1];
            Run(script, image, cs) == if Can(script, image, s, c) then NextOf(script, image, s, c) else s
  {
  }

  lemma ClearedNext(script: Script, image: seq<byte>, s: System, c: Choice)
    requires HciPatch.Bounded(image, s.patch) && Can(script, image, s, c)
    requires s.m.pc.Exited? ==> s.patch.len == 0 && s.patch.offset == 0
    ensures var s' := NextOf(script, image, s, c); s'.m.pc.Exited? ==> s'.patch.len == 0 && s'.patch.offset == 0
  {
    hide HciPatch.Packet;
  }

  // ----- The objects -----

  ghost function StateOf(r: Radio): System
    reads r
  {
    System(r.m, r.patch)
  }

  // Between steps the module owns no buffer, and every buffer it ever had was given away once.
  ghost predicate Settled(r: Radio)
    reads r, r.pool
  {
    r.pool.Ledger() && r.pool.live == {} && HciPatch.Bounded(r.image, r.patch)
  }

  // The effect of a callback by the handler that takes it.
  lemma CallbackNext(script: Script, image: seq<byte>, s: System, entry: Entry, e: Event, granted: bool, accepted: bool)
    requires HciPatch.Bounded(image, s.patch) && Can(script, image, s, Callback(entry, e, granted, accepted))
    ensures entry.Command? ==> entry.index < |script|
    ensures NextOf(script, image, s, Callback(entry, e, granted, accepted)) ==
      match entry
      case WakeUp(i) => System(OnWakeEvent(s.m, i, e, false), s.patch)
      case Command(i) =>
        match script[i].kind
        case Common => System(OnCommandEvent(script, s.m, i, e, false, false), s.patch)
        case BaudRate => System(OnCommandEvent(script, s.m, i, e, false, accepted), s.patch)
        case PatchLoad =>
          System(OnCommandEvent(script, s.m, i, e, PatchLeft(s.patch), granted && accepted),
                 HciPatch.OnComplete(image, s.patch, Completes(e, WRITE_PATCH), granted, accepted).0)
    ensures entry.WakeUp? ==> e.opcode == WAKE_UP
  {
    hide HciPatch.OnComplete;
  }

  // A callback: the received event arrives in a buffer of its own.
  method TakeEvent(r: Radio, entry: Entry, e: Event, granted: bool, accepted: bool)
    requires Settled(r) && Can(r.script, r.image, StateOf(r), Callback(entry, e, granted, accepted))
    modifies r, r.pool
    ensures r.pool.Ledger() && r.pool.live == {}
    ensures StateOf(r) == NextOf(r.script, r.image, old(StateOf(r)), Callback(entry, e, granted, accepted))
  {
    hide HciPatch.OnComplete, BufferPool.Ledger, NextOf, Can, OnCommandEvent, OnWakeEvent;
    CallbackNext(r.script, r.image, StateOf(r), entry, e, granted, accepted);
    var b := r.pool.Obtain();
    match entry {
      case WakeUp(i) => r.OnWakeUp(b, i, e);
      case Command(i) =>
        match r.script[i].kind {
          case Common => r.OnCommonComplete(b, i, e);
          case BaudRate => r.OnBaudCommand(b, i, e, accepted);
          case PatchLoad => var _ := r.OnWritePatch(b, i, e, granted, accepted);
        }
    }
  }

  // One move of GORM_FW_Init_Thread.
  method Advance(r: Radio, granted: bool, accepted: bool)
    requires Settled(r) && Can(r.script, r.image, StateOf(r), Runner(granted, accepted))
    modifies r, r.pool
    ensures r.pool.Ledger() && r.pool.live == {}
    ensures StateOf(r) == NextOf(r.script, r.image, old(StateOf(r)), Runner(granted, accepted))
  {
    hide HciPatch.WritePatch, BufferPool.Ledger;
    match r.m.pc {
      case Ready(i) =>
        if i >= |r.script| {
          r.m := r.m.(pc := Exited(true));
        } else if r.script[i].kind == PatchLoad && r.image == [] {
          r.m := r.m.(pc := Ready(i + 1));
        } else {
          r.SendCommand(granted, accepted);
        }
      case Sent(i) =>
        r.m := r.m.(pc := Waiting(i), status := CmdPending);
      case Waiting(i) =>
        r.m := r.m.(pc := if r.m.status == CmdFail then Exited(false) else Ready(i + 1));
      case Exited(_) =>
        assert false;
    }
    if r.m.pc.Exited? {
      r.patch := r.patch.(len := 0, offset := 0);
    }
  }

  // Drives the objects through an arbitrary interleaving. They follow the run, and after every
  // step each buffer allocated or received so far has been accepted by transmit or
  // deallocated, exactly once.
  method RunRadio(script: Script, image: seq<byte>, cs: seq<Choice>) returns (r: Radio)
    ensures fresh(r) && fresh(r.pool) && Settled(r)
    ensures StateOf(r) == Run(script, image, cs)
  {
    r := new Radio(script, image);
    for k := 0 to |cs|
      invariant fresh(r) && fresh(r.pool) && Settled(r) && r.script == script && r.image == image
      invariant StateOf(r) == Run(script, image, cs[..k])
    {
      hide NextOf, Can;
      assert cs[..k + 1][..k] == cs[..k];
      if Can(script, image, System(r.m, r.patch), cs[k]) {
        NextBounded(script, image, StateOf(r), cs[k]);
        match cs[k] {
          case Callback(entry, e, granted, accepted) => TakeEvent(r, entry, e, granted, accepted);
          case Runner(granted, accepted) => Advance(r, granted, accepted);
        }
      }
    }
    assert cs[..|cs|] == cs;
  }
}
