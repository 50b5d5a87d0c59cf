// What the callbacks make of an event (hardware/bluetooth/mtk6622/radiomod.c), in terms of its
// code, opcode and status alone, and what it takes for firmware initialisation to fail.
module HciVerdict {
  import opened HciScript

  // The events that may arrive for a command: a Command Complete of its own opcode with status
  // 0 and, for the baud-rate command, also such a Command Status.
  predicate Bad(c: Cmd, e: Event) {
    !(e.opcode == c.opcode && e.status == 0 && (e.code == 0x0E || (c.kind == BaudRate && e.code == 0x0F)))
  }

  // The only good event for the wake-up packet.
  predicate BadWakeUp(e: Event) { !(e.code == 0x0E && e.opcode == 0xFCC0 && e.status == 0) }

  // A good event on which the handler sends a packet: the next patch packet, or the wake-up.
  predicate Sends(c: Cmd, e: Event, more: bool) {
    (c.kind == PatchLoad && more) || (c.kind == BaudRate && e.code == 0x0F)
  }

  // A refused alloc or transmit, or a bad event.
  predicate Trouble(script: Script, step: Step) {
    match step
    case SendCmd(granted, accepted) => !granted || !accepted
    case Deliver(Command(i), e, more, accepted) =>
      i < |script| && (Bad(script[i], e) || (Sends(script[i], e, more) && !accepted))
    case Deliver(WakeUp(_), e, _, _) => BadWakeUp(e)
    case _ => false
  }

  // Every callback, by the event: trouble fails the current command, the last good event of a
  // command succeeds, and every other one, the good wake-up reply among them, leaves
  // cmd_status alone.
  lemma VerdictByEvent(script: Script, hasPatch: bool, m: Machine, entry: Entry, e: Event, more: bool, accepted: bool)
    requires ScriptOk(script) && Inv(script, hasPatch, m)
    requires Enabled(script, hasPatch, m, Deliver(entry, e, more, accepted))
    ensures var m' := Next(script, hasPatch, m, Deliver(entry, e, more, accepted));
      && m'.pc == m.pc
      && if Trouble(script, Deliver(entry, e, more, accepted)) then
           m'.status == CmdFail && m'.finished == m.finished
         else if entry.Command? && !Sends(script[entry.index], e, more) then
           m'.status == CmdSuccess && m'.finished == m.finished + [(entry.index, e)]
         else
           m'.status == m.status && m'.finished == m.finished
  {
    hide Inv, ScriptOk, Bad, BadWakeUp, Sends, OnCommandEvent, OnWakeEvent;
    match entry
    case Command(i) =>
      InFlightOpcode(script, hasPatch, m, i);
      CommandVerdict(script, m, i, e, more, accepted);
    case WakeUp(i) => WakeUpVerdict(m, i, e, accepted);
  }

  lemma CommandVerdict(script: Script, m: Machine, i: nat, e: Event, more: bool, accepted: bool)
    requires ScriptOk(script) && i < |script| && Routed(script, Command(i), e) && m.wOpCode == script[i].opcode
    ensures var m' := OnCommandEvent(script, m, i, e, more, accepted);
      && m'.pc == m.pc
      && if Bad(script[i], e) || (Sends(script[i], e, more) && !accepted) then
           m'.status == CmdFail && m'.finished == m.finished
         else if !Sends(script[i], e, more) then m'.status == CmdSuccess && m'.finished == m.finished + [(i, e)]
         else m'.status == m.status && m'.finished == m.finished
  {
    var c := script[i];
    assert c.kind == BaudRate ==> c.opcode == BAUD;
    assert c.kind == PatchLoad ==> c.opcode == WRITE_PATCH;
    hide ScriptOk;
  }

  lemma WakeUpVerdict(m: Machine, i: nat, e: Event, accepted: bool)
    requires e.opcode == WAKE_UP
    ensures var m' := OnWakeEvent(m, i, e, accepted);
      && m'.pc == m.pc && m'.finished == m.finished
      && m'.status == if BadWakeUp(e) then CmdFail else m.status
  {
  }

  lemma InFlightOpcode(script: Script, hasPatch: bool, m: Machine, i: nat)
    requires Inv(script, hasPatch, m) && Command(i) in m.inflight
    ensures i < |script| && m.wOpCode == script[i].opcode
  {
    hide AllGood, Indexes, Required;
  }

  // A run without a refused alloc or transmit and without a bad event never fails.
  lemma {:induction false} NoTroubleNoFailure(script: Script, hasPatch: bool, steps: seq<Step>)
    requires ScriptOk(script) && forall j :: 0 <= j < |steps| ==> !Trouble(script, steps[j])
    ensures var r := Exec(script, hasPatch, steps); r.At? ==> r.m.status != CmdFail && r.m.pc != Exited(false)
  {
    hide Inv, ScriptOk, OnCommandEvent, OnWakeEvent;
    if steps != [] {
      var init, step := steps[..|steps| - 1], steps[|steps| - 1];
      NoTroubleNoFailure(script, hasPatch, init);
      RunKeepsInv(script, hasPatch, init);
      var r := Exec(script, hasPatch, init);
      if r.At? && Enabled(script, hasPatch, r.m, step) && step.Deliver? {
        VerdictByEvent(script, hasPatch, r.m, step.entry, step.e, step.more, step.accepted);
      }
    }
  }

  // In every run, cmd_status is failed, or the runner has given up, only after a refused alloc
  // or transmit or a bad event.
  lemma FailureNeedsCause(script: Script, hasPatch: bool, steps: seq<Step>)
    requires ScriptOk(script)
    ensures var r := Exec(script, hasPatch, steps);
      r.At? && (r.m.status == CmdFail || r.m.pc == Exited(false)) ==>
        exists j :: 0 <= j < |steps| && Trouble(script, steps[j])
  {
    hide Exec, Trouble, ScriptOk;
    if forall j :: 0 <= j < |steps| ==> !Trouble(script, steps[j]) {
      NoTroubleNoFailure(script, hasPatch, steps);
    }
  }

  // ----- The ordinary handshake -----

  const ACCEPT: Event := Event(0x0F, 0xFC77, 0)
  const AWAKE: Event := Event(0x0E, 0xFCC0, 0)

  // The steps of entry i when the controller does as it should: the baud-rate command gets its
  // Command Status, the wake-up packet its Command Complete, then the command its own.
  function Shaken(script: Script, hasPatch: bool, i: nat): seq<Step>
    requires i < |script|
  {
    if script[i].kind == BaudRate then
      [SendCmd(true, true)] + [Pend] + [Deliver(Command(i), ACCEPT, false, true)]
      + [Deliver(WakeUp(i), AWAKE, false, true)] + [Deliver(Command(i), Reply(script[i]), false, true)] + [WakeRunner]
    else Served(script, hasPatch, i)
  }

  function ShakenUpto(script: Script, hasPatch: bool, i: nat): seq<Step>
    requires i <= |script|
  {
    if i == 0 then [] else ShakenUpto(script, hasPatch, i - 1) + Shaken(script, hasPatch, i - 1)
  }

  // The runner is at entry i; every baud-rate entry before it has changed the UART and woken
  // the controller.
  ghost predicate ShookAt(script: Script, m: Machine, i: nat)
    requires i <= |script|
  {
    && ClearAt(m, i)
    && forall j :: 0 <= j < i && script[j].kind == BaudRate ==> HostUart in m.acts && Transmit(WAKE_UP) in m.acts
  }

  lemma ShakeStart(script: Script, hasPatch: bool, m: Machine, i: nat) returns (m1: Machine, m2: Machine)
    requires ScriptOk(script) && i < |script| && ClearAt(m, i) && script[i].kind == BaudRate
    ensures Enabled(script, hasPatch, m, SendCmd(true, true)) && m1 == Next(script, hasPatch, m, SendCmd(true, true))
    ensures Enabled(script, hasPatch, m1, Pend) && m2 == Next(script, hasPatch, m1, Pend)
    ensures m2.pc == Waiting(i) && m2.status == CmdPending && m2.inflight == multiset{Command(i)}
    ensures m2.acts == m.acts + [Transmit(BAUD)]
  {
    m1 := Next(script, hasPatch, m, SendCmd(true, true));
    m2 := Next(script, hasPatch, m1, Pend);
  }

  lemma ShakeAccept(script: Script, hasPatch: bool, m: Machine, i: nat) returns (m': Machine)
    requires i < |script| && script[i].kind == BaudRate && m.inflight == multiset{Command(i)}
    ensures var d := Deliver(Command(i), ACCEPT, false, true);
            Enabled(script, hasPatch, m, d) && m' == Next(script, hasPatch, m, d)
    ensures m'.inflight == multiset{Command(i)} + multiset{WakeUp(i)} && m'.pc == m.pc && m'.status == m.status
    ensures m'.acts == m.acts + [Received(ACCEPT)] + [HostUart] + [Transmit(WAKE_UP)]
  {
    m' := Next(script, hasPatch, m, Deliver(Command(i), ACCEPT, false, true));
    assert m.inflight - multiset{Command(i)} == multiset{};
  }

  lemma ShakeAwake(script: Script, hasPatch: bool, m: Machine, i: nat) returns (m': Machine)
    requires m.inflight == multiset{Command(i)} + multiset{WakeUp(i)}
    ensures var d := Deliver(WakeUp(i), AWAKE, false, true);
            Enabled(script, hasPatch, m, d) && m' == Next(script, hasPatch, m, d)
    ensures m'.inflight == multiset{Command(i)} && m'.pc == m.pc && m'.status == m.status
    ensures m'.acts == m.acts + [Received(AWAKE)]
  {
    m' := Next(script, hasPatch, m, Deliver(WakeUp(i), AWAKE, false, true));
  }

  lemma ShakeEnd(script: Script, hasPatch: bool, m: Machine, i: nat) returns (m': Machine, m'': Machine)
    requires ScriptOk(script) && i < |script| && script[i].kind == BaudRate
    requires m.pc == Waiting(i) && m.inflight == multiset{Command(i)}
    ensures var d := Deliver(Command(i), Reply(script[i]), false, true);
            Enabled(script, hasPatch, m, d) && m' == Next(script, hasPatch, m, d)
    ensures Enabled(script, hasPatch, m', WakeRunner) && m'' == Next(script, hasPatch, m', WakeRunner)
    ensures ClearAt(m'', i + 1) && m''.acts == m.acts + [Received(Reply(script[i]))]
  {
    m' := Next(script, hasPatch, m, Deliver(Command(i), Reply(script[i]), false, true));
    assert m'.inflight == multiset{};
    m'' := Next(script, hasPatch, m', WakeRunner);
  }

  lemma ShakeBaud(script: Script, hasPatch: bool, m: Machine, i: nat) returns (ms: seq<Machine>)
    requires ScriptOk(script) && i < |script| && ClearAt(m, i) && script[i].kind == BaudRate
    ensures |ms| == 7 && |Shaken(script, hasPatch, i)| == 6 && ms[0] == m
    ensures forall k :: 0 <= k < 6 ==>
      Enabled(script, hasPatch, ms[k], Shaken(script, hasPatch, i)[k]) &&
      ms[k + 1] == Next(script, hasPatch, ms[k], Shaken(script, hasPatch, i)[k])
    ensures ClearAt(ms[6], i + 1) && HostUart in ms[6].acts && Transmit(WAKE_UP) in ms[6].acts
  {
    hide ScriptOk, Enabled, Next, ClearAt, Reply;
    var m1, m2 := ShakeStart(script, hasPatch, m, i);
    var m3 := ShakeAccept(script, hasPatch, m2, i);
    var m4 := ShakeAwake(script, hasPatch, m3, i);
    var m5, m6 := ShakeEnd(script, hasPatch, m4, i);
    ms := [m, m1, m2, m3, m4, m5, m6];
  }

  // Steps that are possible one after the other extend a run.
  lemma {:induction false} ExecChain(script: Script, hasPatch: bool, done: seq<Step>, more: seq<Step>, ms: seq<Machine>)
    requires |ms| == |more| + 1 && Exec(script, hasPatch, done) == At(ms[0])
    requires forall k :: 0 <= k < |more| ==>
      Enabled(script, hasPatch, ms[k], more[k]) && ms[k + 1] == Next(script, hasPatch, ms[k], more[k])
    ensures Exec(script, hasPatch, done + more) == At(ms[|more|])
  {
    hide Exec, Enabled, Next;
    if more == [] {
      assert done + more == done;
    } else {
      var n := |more| - 1;
      ExecChain(script, hasPatch, done, more[..n], ms[..n + 1]);
      ExecSnoc(script, hasPatch, done + more[..n], more[n]);
      assert done + more == done + more[..n] + [more[n]];
    }
  }

  lemma ShakeNext(script: Script, hasPatch: bool, done: seq<Step>, i: nat)
    requires ScriptOk(script) && i < |script|
    requires var r := Exec(script, hasPatch, done); r.At? && ShookAt(script, r.m, i)
    ensures var r := Exec(script, hasPatch, done + Shaken(script, hasPatch, i)); r.At? && ShookAt(script, r.m, i + 1)
  {
    hide Exec, Next, Enabled, ScriptOk;
    var m, more := Exec(script, hasPatch, done).m, Shaken(script, hasPatch, i);
    if script[i].kind == BaudRate {
      var ms := ShakeBaud(script, hasPatch, m, i);
      ExecChain(script, hasPatch, done, more, ms);
    } else if Skipped(script[i], hasPatch) {
      SkipClear(script, hasPatch, m, i);
      ExecSnoc(script, hasPatch, done, Skip);
    } else {
      var m1, m2, m3, m4 := ServeOne(script, hasPatch, m, i);
      ExecChain(script, hasPatch, done, more, [m, m1, m2, m3, m4]);
    }
  }

  lemma SkipClear(script: Script, hasPatch: bool, m: Machine, i: nat)
    requires i < |script| && ClearAt(m, i) && Skipped(script[i], hasPatch)
    ensures Enabled(script, hasPatch, m, Skip)
    ensures var m' := Next(script, hasPatch, m, Skip); ClearAt(m', i + 1) && m'.acts == m.acts
  {
  }

  lemma {:induction false} ShakenReaches(script: Script, hasPatch: bool, i: nat)
    requires ScriptOk(script) && i <= |script|
    ensures var r := Exec(script, hasPatch, ShakenUpto(script, hasPatch, i)); r.At? && ShookAt(script, r.m, i)
  {
    hide Exec, ScriptOk, Shaken;
    if i == 0 {
      QuietStart(script, hasPatch);
    } else {
      ShakenReaches(script, hasPatch, i - 1);
      ShakeNext(script, hasPatch, ShakenUpto(script, hasPatch, i - 1), i - 1);
    }
  }

  // A controller that does as it should brings every script to success, and a baud-rate entry
  // then has changed the host UART and sent the wake-up packet.
  lemma HandshakeSucceeds(script: Script, hasPatch: bool)
    requires ScriptOk(script)
    ensures var r := Exec(script, hasPatch, ShakenUpto(script, hasPatch, |script|) + [Finish]);
      && r.At? && r.m.pc == Exited(true)
      && forall i :: 0 <= i < |script| && script[i].kind == BaudRate ==>
           HostUart in r.m.acts && Transmit(WAKE_UP) in r.m.acts
  {
    hide Exec;
    ShakenReaches(script, hasPatch, |script|);
    ExecSnoc(script, hasPatch, ShakenUpto(script, hasPatch, |script|), Finish);
  }
}
