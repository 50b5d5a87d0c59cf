// The firmware-init script runner and its HCI event callbacks
// (hardware/bluetooth/mtk6622/radiomod.c) as interleaved steps. Events follow sections 7.7.14
// (Command Complete) and 7.7.15 (Command Status) of the Bluetooth Core Specification 4.0,
// Volume 2, Part E.
module HciScript {

  const COMMAND_COMPLETE: int := 0x0E
  const COMMAND_STATUS: int := 0x0F
  const BAUD: int := 0xFC77
  const WAKE_UP: int := 0xFCC0
  const WRITE_PATCH: int := 0xFCC4

  datatype Kind = Common | BaudRate | PatchLoad

  datatype Cmd = Cmd(kind: Kind, opcode: int)

  datatype Event = Event(code: int, opcode: int, status: int)

  datatype Status = CmdSuccess | CmdFail | CmdPending

  // Where the runner is: about to handle script entry i; entry i sent but cmd_status not yet
  // set to pending; waiting for its status; gone, having reported `ok`.
  datatype Pc = Ready(i: nat) | Sent(i: nat) | Waiting(i: nat) | Exited(ok: bool)

  // A transmission whose callback may still run: a script command, or the wake-up packet.
  datatype Entry = Command(index: nat) | WakeUp(index: nat)

  // Externally visible actions.
  datatype Act = Transmit(opcode: int) | Received(e: Event) | HostUart

  datatype Machine = Machine(
    pc: Pc,
    status: Status,                   // cmd_status
    wOpCode: int,
    inflight: multiset<Entry>,
    finished: seq<(nat, Event)>,      // success reports: script entry and the event that caused it
    early: bool,                      // the current command's reply was reported before cmd_status was set pending
    acts: seq<Act>)

  datatype Step =
    | Skip                                                             // no patch data: skip the patch entry
    | SendCmd(granted: bool, accepted: bool)                           // alloc, build, transmit
    | Pend                                                             // cmd_status = CMD_PENDING
    | WakeRunner                                                       // cmd_status is no longer pending
    | Finish                                                           // end of script
    | Deliver(entry: Entry, e: Event, more: bool, accepted: bool)      // a callback runs

  type Script = seq<Cmd>

  // The init script for the standalone chip.
  const PRELOAD: Script := [
    Cmd(Common, 0x1001), Cmd(Common, 0xFCCC), Cmd(Common, 0xFCD0), Cmd(Common, 0xFCD1), Cmd(Common, 0xFCD1),
    Cmd(BaudRate, BAUD), Cmd(PatchLoad, WRITE_PATCH), Cmd(Common, 0xFC1A), Cmd(Common, 0xFC7F),
    Cmd(Common, 0xFC1B), Cmd(Common, 0xFC75), Cmd(Common, 0xFC76), Cmd(Common, 0x0C0A), Cmd(Common, 0xFC79),
    Cmd(Common, 0xFC7A), Cmd(Common, 0xFC7D), Cmd(Common, 0xFC1E), Cmd(Common, 0xFC7B), Cmd(Common, 0xFC7C),
    Cmd(Common, 0xFC20), Cmd(Common, 0xFC74), Cmd(Common, 0x0C03), Cmd(Common, 0xFCD2), Cmd(Common, 0xFCD3),
    Cmd(Common, 0x0C3F), Cmd(Common, 0xFCD0)]

  // Exactly the baud-rate and patch entries carry their fixed opcodes; no entry is the wake-up packet.
  predicate ScriptOk(script: Script) {
    forall i :: 0 <= i < |script| ==>
      && (script[i].kind == BaudRate <==> script[i].opcode == BAUD)
      && (script[i].kind == PatchLoad <==> script[i].opcode == WRITE_PATCH)
      && script[i].opcode != WAKE_UP
  }

  // The script loads the patch once, at entry x.
  predicate OnlyPatch(script: Script, x: nat) {
    x < |script| && forall i :: 0 <= i < |script| ==> (script[i].kind == PatchLoad <==> i == x)
  }

  lemma PreloadOk()
    ensures ScriptOk(PRELOAD) && OnlyPatch(PRELOAD, 6)
    ensures PRELOAD[0].kind == Common && PRELOAD[5].kind == BaudRate
  {
  }

  predicate Skipped(c: Cmd, hasPatch: bool) { c.kind == PatchLoad && !hasPatch }

  // ----- The callbacks -----

  predicate Completes(e: Event, opcode: int) {
    e.code == COMMAND_COMPLETE && e.opcode == opcode && e.status == 0
  }

  // What GORMevt_HCE_ChangeBaudRate does with an event.
  datatype BaudReply = Report(ok: bool) | Quiet | Rearm

  predicate AcceptsBaud(e: Event) { e.code == COMMAND_STATUS && e.opcode == BAUD && e.status == 0 }

  function OnBaudEvent(e: Event, accepted: bool): BaudReply {
    if e.code == COMMAND_STATUS then
      if AcceptsBaud(e) && accepted then Rearm else Report(false)
    else if e.code == COMMAND_COMPLETE then
      if e.opcode == WAKE_UP then (if e.status == 0 then Quiet else Report(false))
      else Report(e.opcode == BAUD && e.status == 0)
    else Report(false)
  }

  // A callback sets cmd_status for the current command.
  function ReportStatus(m: Machine, index: nat, e: Event, ok: bool): Machine {
    m.(status := if ok then CmdSuccess else CmdFail,
       finished := if ok then m.finished + [(index, e)] else m.finished,
       early := m.early || m.pc.Sent?)
  }

  // The callback of a script command's transmission. `more`: the patch handler has a further
  // packet to send; `accepted`: transmit takes the packet the handler sends.
  function OnCommandEvent(script: Script, m: Machine, index: nat, e: Event, more: bool, accepted: bool): Machine
    requires index < |script|
  {
    var gone := m.(inflight := m.inflight - multiset{Command(index)}, acts := m.acts + [Received(e)]);
    match script[index].kind
    case Common => ReportStatus(gone, index, e, Completes(e, m.wOpCode))
    case PatchLoad =>
      if Completes(e, WRITE_PATCH) && more then
        (if accepted then
           gone.(inflight := gone.inflight + multiset{Command(index)}, acts := gone.acts + [Transmit(WRITE_PATCH)])
         else ReportStatus(gone, index, e, false))
      else ReportStatus(gone, index, e, Completes(e, WRITE_PATCH))
    case BaudRate =>
      var uart := if AcceptsBaud(e) then gone.(acts := gone.acts + [HostUart]) else gone;
      match OnBaudEvent(e, accepted)
      case Report(ok) => ReportStatus(uart, index, e, ok)
      case Quiet => uart
      case Rearm =>   // the command's own Command Complete is still to come
        uart.(inflight := uart.inflight + multiset{Command(index)} + multiset{WakeUp(index)},
              acts := uart.acts + [Transmit(WAKE_UP)])
  }

  // The callback of the wake-up packet: it can only fail the current command.
  function OnWakeEvent(m: Machine, index: nat, e: Event, accepted: bool): Machine {
    var gone := m.(inflight := m.inflight - multiset{WakeUp(index)}, acts := m.acts + [Received(e)]);
    match OnBaudEvent(e, accepted)
    case Quiet => gone
    case _ => gone.(status := CmdFail)
  }

  // ----- Steps -----

  // The transport hands an event to the callback registered for its opcode; the baud-rate and
  // wake-up packets share one handler, so for them this matters.
  predicate Routed(script: Script, entry: Entry, e: Event) {
    match entry
    case Command(i) => i < |script| && (script[i].kind == BaudRate ==> e.opcode == BAUD)
    case WakeUp(_) => e.opcode == WAKE_UP
  }

  predicate Enabled(script: Script, hasPatch: bool, m: Machine, step: Step) {
    match step
    case Skip => m.pc.Ready? && m.pc.i < |script| && Skipped(script[m.pc.i], hasPatch)
    case SendCmd(_, _) => m.pc.Ready? && m.pc.i < |script| && !Skipped(script[m.pc.i], hasPatch)
    case Pend => m.pc.Sent?
    case WakeRunner => m.pc.Waiting? && m.status != CmdPending
    case Finish => m.pc.Ready? && m.pc.i >= |script|
    case Deliver(entry, e, _, _) => entry in m.inflight && Routed(script, entry, e)
  }

  function Next(script: Script, hasPatch: bool, m: Machine, step: Step): Machine
    requires Enabled(script, hasPatch, m, step)
  {
    match step
    case Skip => m.(pc := Ready(m.pc.i + 1))
    case SendCmd(granted, accepted) =>
      var i := m.pc.i;
      if !granted then m.(pc := Exited(false))
      else
        var built := m.(wOpCode := script[i].opcode, early := false);
        if accepted then
          built.(pc := Sent(i), inflight := m.inflight + multiset{Command(i)},
                 acts := m.acts + [Transmit(script[i].opcode)])
        else built.(pc := Exited(false))
    case Pend => m.(pc := Waiting(m.pc.i), status := CmdPending)
    case WakeRunner => m.(pc := if m.status == CmdSuccess then Ready(m.pc.i + 1) else Exited(false))
    case Finish => m.(pc := Exited(true))
    case Deliver(entry, e, more, accepted) =>
      match entry
      case Command(i) => OnCommandEvent(script, m, i, e, more, accepted)
      case WakeUp(i) => OnWakeEvent(m, i, e, accepted)
  }

  const INITIAL: Machine := Machine(Ready(0), CmdSuccess, 0, multiset{}, [], false, [])

  // ----- The invariant -----

  // The entries below i that are not skipped, in order.
  function Required(script: Script, hasPatch: bool, i: nat): seq<nat>
    requires i <= |script|
  {
    if i == 0 then []
    else Required(script, hasPatch, i - 1) + if Skipped(script[i - 1], hasPatch) then [] else [i - 1]
  }

  function Indexes(finished: seq<(nat, Event)>): seq<nat> {
    seq(|finished|, k requires 0 <= k < |finished| => finished[k].0)
  }

  // Every success report was caused by a Command Complete with the entry's opcode and status 0.
  ghost predicate AllGood(script: Script, finished: seq<(nat, Event)>) {
    forall k :: 0 <= k < |finished| ==>
      finished[k].0 < |script| && Completes(finished[k].1, script[finished[k].0].opcode)
  }

  // No script command is in flight.
  ghost predicate Idle(m: Machine) { forall j :: Command(j) !in m.inflight }

  // Exactly one is, and it is entry i.
  ghost predicate Busy(m: Machine, i: nat) {
    m.inflight[Command(i)] == 1 && forall j :: j != i ==> Command(j) !in m.inflight
  }

  // The runner is on entry i, which is sent: either its reply is outstanding, or it has been
  // reported - too early to count, or as cmd_status says.
  ghost predicate OnEntry(script: Script, hasPatch: bool, m: Machine, i: nat) {
    && i < |script| && !Skipped(script[i], hasPatch) && m.wOpCode == script[i].opcode
    && (Busy(m, i) || Idle(m))
    && (Busy(m, i) ==> !m.early && Indexes(m.finished) == Required(script, hasPatch, i))
    && (Idle(m) ==> (Indexes(m.finished) == Required(script, hasPatch, i) ||
                     Indexes(m.finished) == Required(script, hasPatch, i) + [i]))
  }

  ghost predicate Inv(script: Script, hasPatch: bool, m: Machine) {
    && AllGood(script, m.finished)
    && match m.pc
       case Ready(i) => i <= |script| && Idle(m) && Indexes(m.finished) == Required(script, hasPatch, i)
       case Sent(i) => OnEntry(script, hasPatch, m, i) && (Idle(m) ==> m.early)
       case Waiting(i) =>
         && OnEntry(script, hasPatch, m, i)
         && (m.status == CmdPending ==> (Idle(m) <==> m.early))
         && (m.status == CmdSuccess ==> Idle(m) && Indexes(m.finished) == Required(script, hasPatch, i) + [i])
       case Exited(ok) =>
         && (forall j: nat :: Command(j) in m.inflight ==> Busy(m, j) && j < |script| && m.wOpCode == script[j].opcode)
         && (ok ==> Idle(m) && Indexes(m.finished) == Required(script, hasPatch, |script|))
  }

  lemma IndexesSnoc(finished: seq<(nat, Event)>, i: nat, e: Event)
    ensures Indexes(finished + [(i, e)]) == Indexes(finished) + [i]
  {
  }

  // A step that leaves the command bookkeeping alone keeps the invariant; so does failing a wait.
  lemma SameCommands(script: Script, hasPatch: bool, m: Machine, m': Machine)
    requires Inv(script, hasPatch, m)
    requires m'.pc == m.pc && m'.wOpCode == m.wOpCode && m'.finished == m.finished && m'.early == m.early
    requires m'.status == m.status || m'.status == CmdFail
    requires forall j :: m'.inflight[Command(j)] == m.inflight[Command(j)]
    ensures Inv(script, hasPatch, m')
  {
    hide AllGood, Indexes, Required, Skipped;
    assert Idle(m') <==> Idle(m) by {
      assert forall j :: Command(j) in m'.inflight <==> m'.inflight[Command(j)] > 0;
      assert forall j :: Command(j) in m.inflight <==> m.inflight[Command(j)] > 0;
    }
    assert forall j :: Busy(m', j) <==> Busy(m, j);
  }

  lemma ReportKeepsInv(script: Script, hasPatch: bool, m: Machine, index: nat, e: Event, ok: bool, acts: seq<Act>)
    requires Inv(script, hasPatch, m) && Command(index) in m.inflight && index < |script|
    requires ok ==> Completes(e, script[index].opcode)
    ensures var gone := m.(inflight := m.inflight - multiset{Command(index)}, acts := acts);
            Inv(script, hasPatch, ReportStatus(gone, index, e, ok))
  {
    hide Required, Skipped, Completes;
    IndexesSnoc(m.finished, index, e);
    hide Indexes;
    var gone := m.inflight - multiset{Command(index)};
    assert forall j :: j != index ==> gone[Command(j)] == m.inflight[Command(j)];
    assert forall j :: Command(j) in m.inflight <==> m.inflight[Command(j)] > 0;
    assert forall j :: Command(j) in gone <==> gone[Command(j)] > 0;
  }

  // The callback either reports a status and forgets the command, success only on a Command
  // Complete with its opcode and status 0; or it sends again and the command stays in flight.
  lemma CommandEventShape(script: Script, hasPatch: bool, m: Machine, index: nat, e: Event, more: bool, accepted: bool)
    requires ScriptOk(script) && index < |script| && Command(index) in m.inflight && Routed(script, Command(index), e)
    requires m.wOpCode == script[index].opcode
    ensures var m' := OnCommandEvent(script, m, index, e, more, accepted);
      || (exists ok :: (ok ==> Completes(e, script[index].opcode)) &&
            m' == ReportStatus(m.(inflight := m.inflight - multiset{Command(index)}, acts := m'.acts), index, e, ok))
      || (&& m' == m.(inflight := m'.inflight, acts := m'.acts)
          && (forall j :: m'.inflight[Command(j)] == m.inflight[Command(j)]))
  {
    var m' := OnCommandEvent(script, m, index, e, more, accepted);
    if m'.inflight == m.inflight - multiset{Command(index)} {
      var ok := m'.status == CmdSuccess && |m'.finished| > |m.finished|;
      assert m' == ReportStatus(m.(inflight := m.inflight - multiset{Command(index)}, acts := m'.acts), index, e, ok);
    }
  }

  lemma DeliverKeepsInv(script: Script, hasPatch: bool, m: Machine, entry: Entry, e: Event, more: bool, accepted: bool)
    requires ScriptOk(script) && Inv(script, hasPatch, m) && entry in m.inflight && Routed(script, entry, e)
    ensures Inv(script, hasPatch, Next(script, hasPatch, m, Deliver(entry, e, more, accepted)))
  {
    match entry
    case Command(i) =>
      assert m.wOpCode == script[i].opcode;
      CommandEventShape(script, hasPatch, m, i, e, more, accepted);
      var m' := OnCommandEvent(script, m, i, e, more, accepted);
      hide Inv, OnCommandEvent;
      if && m' == m.(inflight := m'.inflight, acts := m'.acts)
         && forall j :: m'.inflight[Command(j)] == m.inflight[Command(j)]
      {
        SameCommands(script, hasPatch, m, m');
      } else {
        var ok :| (ok ==> Completes(e, script[i].opcode)) &&
          m' == ReportStatus(m.(inflight := m.inflight - multiset{Command(i)}, acts := m'.acts), i, e, ok);
        ReportKeepsInv(script, hasPatch, m, i, e, ok, m'.acts);
      }
    case WakeUp(i) =>
      SameCommands(script, hasPatch, m, OnWakeEvent(m, i, e, accepted));
  }

  lemma SendKeepsInv(script: Script, hasPatch: bool, m: Machine, granted: bool, accepted: bool)
    requires Inv(script, hasPatch, m) && Enabled(script, hasPatch, m, SendCmd(granted, accepted))
    ensures Inv(script, hasPatch, Next(script, hasPatch, m, SendCmd(granted, accepted)))
  {
    hide AllGood, Indexes, Required;
    var m' := Next(script, hasPatch, m, SendCmd(granted, accepted));
    if granted && accepted {
      assert Busy(m', m.pc.i);
    }
  }

  lemma StepKeepsInv(script: Script, hasPatch: bool, m: Machine, step: Step)
    requires ScriptOk(script) && Inv(script, hasPatch, m) && Enabled(script, hasPatch, m, step)
    ensures Inv(script, hasPatch, Next(script, hasPatch, m, step))
  {
    hide AllGood, Indexes;
    match step
    case SendCmd(granted, accepted) => SendKeepsInv(script, hasPatch, m, granted, accepted);
    case Deliver(entry, e, more, accepted) => DeliverKeepsInv(script, hasPatch, m, entry, e, more, accepted);
    case Skip =>
    case Pend =>
    case WakeRunner =>
    case Finish =>
  }

  // ----- Runs -----

  // The machine after a run from the start, or Stopped if some step was not enabled.
  datatype Result = Stopped | At(m: Machine)

  function Exec(script: Script, hasPatch: bool, steps: seq<Step>): Result {
    if steps == [] then At(INITIAL)
    else
      match Exec(script, hasPatch, steps[..|steps| - 1])
      case Stopped => Stopped
      case At(m) =>
        if Enabled(script, hasPatch, m, steps[|steps| - 1])
        then At(Next(script, hasPatch, m, steps[|steps| - 1])) else Stopped
  }

  lemma {:induction false} RunKeepsInv(script: Script, hasPatch: bool, steps: seq<Step>)
    requires ScriptOk(script)
    ensures var r := Exec(script, hasPatch, steps); r.At? ==> Inv(script, hasPatch, r.m)
  {
    if steps == [] {
      assert Indexes([]) == [];
    } else {
      RunKeepsInv(script, hasPatch, steps[..|steps| - 1]);
      var r := Exec(script, hasPatch, steps[..|steps| - 1]);
      if r.At? && Enabled(script, hasPatch, r.m, steps[|steps| - 1]) {
        StepKeepsInv(script, hasPatch, r.m, steps[|steps| - 1]);
      }
    }
  }

  // In every interleaving at most one script command is outstanding.
  lemma OneOutstanding(script: Script, hasPatch: bool, steps: seq<Step>, j: nat, k: nat)
    requires ScriptOk(script) && Exec(script, hasPatch, steps).At?
    ensures var m := Exec(script, hasPatch, steps).m;
            Command(j) in m.inflight && Command(k) in m.inflight ==> j == k && m.inflight[Command(j)] == 1
  {
    RunKeepsInv(script, hasPatch, steps);
    hide AllGood, Indexes, Required;
  }

  // In every interleaving, success is reported only if every entry that is not skipped
  // finished, in script order, with a Command Complete of its own opcode and status 0.
  lemma SuccessMeansAllDone(script: Script, hasPatch: bool, steps: seq<Step>)
    requires ScriptOk(script)
    ensures var r := Exec(script, hasPatch, steps);
      r.At? && r.m.pc == Exited(true) ==>
        && Indexes(r.m.finished) == Required(script, hasPatch, |script|)
        && AllGood(script, r.m.finished)
  {
    RunKeepsInv(script, hasPatch, steps);
  }

  // A waiting runner can still be woken by its command exactly if the reply was not handled
  // before cmd_status was set pending.
  lemma WakesIffNotEarly(script: Script, hasPatch: bool, steps: seq<Step>)
    requires ScriptOk(script)
    ensures var r := Exec(script, hasPatch, steps);
      r.At? && r.m.pc.Waiting? && r.m.status == CmdPending ==> (!r.m.early <==> Command(r.m.pc.i) in r.m.inflight)
  {
    RunKeepsInv(script, hasPatch, steps);
    hide AllGood, Indexes, Required;
  }

  lemma ExecSnoc(script: Script, hasPatch: bool, steps: seq<Step>, step: Step)
    requires var r := Exec(script, hasPatch, steps); r.At? && Enabled(script, hasPatch, r.m, step)
    ensures Exec(script, hasPatch, steps + [step]) == At(Next(script, hasPatch, Exec(script, hasPatch, steps).m, step))
  {
    assert (steps + [step])[..|steps|] == steps;
  }

  // A runner that waits with nothing in flight waits forever.
  lemma Deadlock(script: Script, hasPatch: bool, m: Machine, step: Step)
    requires m.pc.Waiting? && m.status == CmdPending && m.inflight == multiset{}
    ensures !Enabled(script, hasPatch, m, step)
  {
  }

  // The lost wake-up: for every script that begins with an ordinary command, a perfect reply
  // that is handled too early leaves the runner waiting in a state where nothing can happen
  // any more.
  lemma LostWakeUp(script: Script, hasPatch: bool)
    requires script != [] && script[0].kind == Common
    ensures var reply := Deliver(Command(0), Reply(script[0]), false, false);
            var r := Exec(script, hasPatch, [SendCmd(true, true)] + [reply] + [Pend]);
            r.At? && r.m.pc == Waiting(0) && forall step :: !Enabled(script, hasPatch, r.m, step)
  {
    hide Exec, Next, Enabled;
    var s1, s2 := SendCmd(true, true), Deliver(Command(0), Reply(script[0]), false, false);
    var m1, m2 := EarlyReply(script, hasPatch);
    ExecSnoc(script, hasPatch, [], s1);
    assert [] + [s1] == [s1];
    ExecSnoc(script, hasPatch, [s1], s2);
    ExecSnoc(script, hasPatch, [s1] + [s2], Pend);
    var m := Exec(script, hasPatch, [s1] + [s2] + [Pend]).m;
    forall step ensures !Enabled(script, hasPatch, m, step) {
      Deadlock(script, hasPatch, m, step);
    }
  }

  // The perfect reply to a command.
  function Reply(c: Cmd): Event { Event(COMMAND_COMPLETE, c.opcode, 0) }

  lemma EarlyReply(script: Script, hasPatch: bool) returns (m1: Machine, m2: Machine)
    requires script != [] && script[0].kind == Common
    ensures var s1, s2 := SendCmd(true, true), Deliver(Command(0), Reply(script[0]), false, false);
      && Exec(script, hasPatch, []) == At(INITIAL)
      && Enabled(script, hasPatch, INITIAL, s1) && Next(script, hasPatch, INITIAL, s1) == m1
      && Enabled(script, hasPatch, m1, s2) && Next(script, hasPatch, m1, s2) == m2
      && Enabled(script, hasPatch, m2, Pend)
      && Next(script, hasPatch, m2, Pend) == m2.(pc := Waiting(0), status := CmdPending)
      && m2.inflight == multiset{}
  {
    m1 := Next(script, hasPatch, INITIAL, SendCmd(true, true));
    assert m1.inflight == multiset{Command(0)} && m1.pc == Sent(0) && m1.wOpCode == script[0].opcode;
    m2 := Next(script, hasPatch, m1, Deliver(Command(0), Reply(script[0]), false, false));
  }

  // The preload script can lose its first wake-up.
  lemma PreloadLostWakeUp(hasPatch: bool)
    ensures exists steps :: var r := Exec(PRELOAD, hasPatch, steps);
              r.At? && r.m.pc == Waiting(0) && forall step :: !Enabled(PRELOAD, hasPatch, r.m, step)
  {
    PreloadOk();
    LostWakeUp(PRELOAD, hasPatch);
  }

  // ----- The baud-rate handshake -----

  // The opcode of the last script command transmitted, or -1.
  function LastSend(acts: seq<Act>): int {
    if acts == [] then -1
    else
      var last := acts[|acts| - 1];
      if last.Transmit? && last.opcode != WAKE_UP then last.opcode else LastSend(acts[..|acts| - 1])
  }

  predicate ScriptSend(a: Act) { a.Transmit? && a.opcode != WAKE_UP }

  // The last script command was transmitted at some point, and none has been since.
  lemma {:induction false} LastSendMeaning(acts: seq<Act>) returns (j: int)
    ensures -1 <= j < |acts| && (j == -1 ==> LastSend(acts) == -1)
    ensures j >= 0 ==> acts[j] == Transmit(LastSend(acts)) && ScriptSend(acts[j])
    ensures forall l :: j < l < |acts| ==> !ScriptSend(acts[l])
  {
    j := -1;
    if acts != [] {
      if ScriptSend(acts[|acts| - 1]) {
        j := |acts| - 1;
      } else {
        j := LastSendMeaning(acts[..|acts| - 1]);
      }
    }
  }

  // The k-th action is the arrival of an accepting Command Status for the baud-rate command,
  // sent before and followed by no other script command so far.
  predicate Accepted(acts: seq<Act>, k: nat)
    requires k < |acts|
  {
    acts[k].Received? && AcceptsBaud(acts[k].e) && LastSend(acts[..k]) == BAUD
  }

  // The host UART changes only on such a status, and the wake-up packet goes out only right
  // after the UART change.
  ghost predicate Handshake(acts: seq<Act>) {
    forall k :: 0 <= k < |acts| ==> Justified(acts, k)
  }

  predicate Justified(acts: seq<Act>, k: nat)
    requires k < |acts|
  {
    && (acts[k] == HostUart ==> k > 0 && Accepted(acts, k - 1))
    && (acts[k] == Transmit(WAKE_UP) ==> k > 0 && acts[k - 1] == HostUart)
  }

  // And on every such status the host UART does change, at once.
  ghost predicate Answered(acts: seq<Act>) {
    forall k :: 0 <= k < |acts| && Accepted(acts, k) ==> k + 1 < |acts| && acts[k + 1] == HostUart
  }

  lemma AcceptedPrefix(acts: seq<Act>, more: seq<Act>, k: nat)
    requires k < |acts|
    ensures Accepted(acts + more, k) == Accepted(acts, k)
  {
    assert (acts + more)[..k] == acts[..k];
  }

  lemma HandshakeSnoc(acts: seq<Act>, a: Act)
    requires Handshake(acts)
    requires a == HostUart ==> |acts| > 0 && Accepted(acts, |acts| - 1)
    requires a == Transmit(WAKE_UP) ==> |acts| > 0 && acts[|acts| - 1] == HostUart
    ensures Handshake(acts + [a])
    ensures LastSend(acts + [a]) == if ScriptSend(a) then a.opcode else LastSend(acts)
  {
    hide Accepted, LastSend;
    LastSendSnoc(acts, a);
    forall k | 0 <= k < |acts| + 1 ensures Justified(acts + [a], k) {
      if k > 0 {
        AcceptedPrefix(acts, [a], k - 1);
      }
      if k < |acts| {
        assert Justified(acts, k);
      }
    }
  }

  lemma LastSendSnoc(acts: seq<Act>, a: Act)
    ensures LastSend(acts + [a]) == if ScriptSend(a) then a.opcode else LastSend(acts)
  {
    assert (acts + [a])[..|acts|] == acts;
  }

  lemma AnsweredSnoc(acts: seq<Act>, a: Act)
    requires Answered(acts) && !(a.Received? && AcceptsBaud(a.e) && LastSend(acts) == BAUD)
    ensures Answered(acts + [a])
  {
    assert (acts + [a])[..|acts|] == acts;
    forall k | 0 <= k < |acts| + 1 && Accepted(acts + [a], k)
      ensures k + 1 < |acts| + 1 && (acts + [a])[k + 1] == HostUart
    {
      if k < |acts| {
        AcceptedPrefix(acts, [a], k);
      }
    }
  }

  // The UART change is the answer to the status before it.
  lemma AnsweredUart(acts: seq<Act>, e: Event)
    requires Answered(acts)
    ensures Answered(acts + [Received(e)] + [HostUart])
  {
    var more := [Received(e)] + [HostUart];
    assert acts + [Received(e)] + [HostUart] == acts + more;
    forall k | 0 <= k < |acts| + 2 && Accepted(acts + more, k)
      ensures k + 1 < |acts| + 2 && (acts + more)[k + 1] == HostUart
    {
      if k < |acts| {
        AcceptedPrefix(acts, more, k);
      }
    }
  }

  // The command in flight is the last one sent.
  ghost predicate LastIsInFlight(script: Script, m: Machine) {
    forall i: nat :: Command(i) in m.inflight ==> i < |script| && LastSend(m.acts) == script[i].opcode
  }

  ghost predicate Trace(script: Script, m: Machine) {
    Handshake(m.acts) && Answered(m.acts) && LastIsInFlight(script, m)
  }

  lemma SendKeepsTrace(script: Script, hasPatch: bool, m: Machine, granted: bool, accepted: bool)
    requires ScriptOk(script) && Inv(script, hasPatch, m) && Trace(script, m)
    requires Enabled(script, hasPatch, m, SendCmd(granted, accepted))
    ensures Trace(script, Next(script, hasPatch, m, SendCmd(granted, accepted)))
  {
    hide Handshake, Answered, AllGood, Indexes, Required, LastSend;
    var a := Transmit(script[m.pc.i].opcode);
    HandshakeSnoc(m.acts, a);
    AnsweredSnoc(m.acts, a);
  }

  // What a callback of command i adds to the trace.
  lemma CommandTrace(script: Script, m: Machine, i: nat, e: Event, more: bool, accepted: bool)
    requires ScriptOk(script) && i < |script| && Handshake(m.acts) && Answered(m.acts)
    requires LastSend(m.acts) == script[i].opcode
    ensures var acts := OnCommandEvent(script, m, i, e, more, accepted).acts;
            Handshake(acts) && Answered(acts) && LastSend(acts) == script[i].opcode
  {
    hide Handshake, Answered, LastSend;
    var acts := m.acts + [Received(e)];
    HandshakeSnoc(m.acts, Received(e));
    if script[i].kind == BaudRate && AcceptsBaud(e) {
      JustReceived(m.acts, e);
      HandshakeSnoc(acts, HostUart);
      AnsweredUart(m.acts, e);
      HandshakeSnoc(acts + [HostUart], Transmit(WAKE_UP));
      AnsweredSnoc(acts + [HostUart], Transmit(WAKE_UP));
    } else {
      AnsweredSnoc(m.acts, Received(e));
      HandshakeSnoc(acts, Transmit(WRITE_PATCH));
      AnsweredSnoc(acts, Transmit(WRITE_PATCH));
    }
  }

  lemma JustReceived(acts: seq<Act>, e: Event)
    requires AcceptsBaud(e) && LastSend(acts) == BAUD
    ensures Accepted(acts + [Received(e)], |acts|)
  {
    assert (acts + [Received(e)])[..|acts|] == acts;
  }

  lemma DeliverKeepsTrace(script: Script, hasPatch: bool, m: Machine, entry: Entry, e: Event, more: bool,
                          accepted: bool)
    requires ScriptOk(script) && Inv(script, hasPatch, m) && Trace(script, m)
    requires entry in m.inflight && Routed(script, entry, e)
    ensures Trace(script, Next(script, hasPatch, m, Deliver(entry, e, more, accepted)))
  {
    hide Handshake, Answered, LastSend, OnCommandEvent, Inv;
    match entry
    case Command(i) =>
      CommandTrace(script, m, i, e, more, accepted);
      OnlyCommand(script, hasPatch, m, i, e, more, accepted);
    case WakeUp(i) =>
      HandshakeSnoc(m.acts, Received(e));
      AnsweredSnoc(m.acts, Received(e));
  }

  // Only the command that was in flight still can be.
  lemma OnlyCommand(script: Script, hasPatch: bool, m: Machine, i: nat, e: Event, more: bool, accepted: bool)
    requires Inv(script, hasPatch, m) && Command(i) in m.inflight && i < |script|
    ensures forall j :: Command(j) in OnCommandEvent(script, m, i, e, more, accepted).inflight ==> j == i
  {
    hide AllGood, Indexes, Required, Completes;
    assert forall j :: Command(j) in m.inflight ==> j == i;
  }

  lemma StepKeepsTrace(script: Script, hasPatch: bool, m: Machine, step: Step)
    requires ScriptOk(script) && Inv(script, hasPatch, m) && Enabled(script, hasPatch, m, step) && Trace(script, m)
    ensures Trace(script, Next(script, hasPatch, m, step))
  {
    hide Handshake, Answered, LastSend, Inv, OnCommandEvent, OnWakeEvent;
    match step
    case SendCmd(granted, accepted) => SendKeepsTrace(script, hasPatch, m, granted, accepted);
    case Deliver(entry, e, more, accepted) => DeliverKeepsTrace(script, hasPatch, m, entry, e, more, accepted);
    case _ =>
  }

  // In every interleaving: the host UART changes exactly on an accepting Command Status for the
  // baud-rate command, received after its transmission and before any other script command
  // was sent; the wake-up packet follows that change; and the command in flight is the last sent.
  lemma {:induction false} HandshakeOverRuns(script: Script, hasPatch: bool, steps: seq<Step>)
    requires ScriptOk(script)
    ensures var r := Exec(script, hasPatch, steps); r.At? ==> Trace(script, r.m)
  {
    hide Trace, Inv, Next, Enabled;
    if steps == [] {
      TraceStart(script);
    } else {
      var init, step := steps[..|steps| - 1], steps[|steps| - 1];
      HandshakeOverRuns(script, hasPatch, init);
      RunKeepsInv(script, hasPatch, init);
      var r := Exec(script, hasPatch, init);
      if r.At? && Enabled(script, hasPatch, r.m, step) {
        StepKeepsTrace(script, hasPatch, r.m, step);
      }
    }
  }

  lemma TraceStart(script: Script)
    ensures Trace(script, INITIAL)
  {
  }

  // Whether the host UART was changed is decided by the controller's Command Status alone.
  lemma UartIffAccepted(script: Script, hasPatch: bool, steps: seq<Step>)
    requires ScriptOk(script) && Exec(script, hasPatch, steps).At?
    ensures var acts := Exec(script, hasPatch, steps).m.acts;
            HostUart in acts <==> exists k: nat :: k < |acts| && Accepted(acts, k)
  {
    hide Exec, Accepted, LastIsInFlight;
    HandshakeOverRuns(script, hasPatch, steps);
    var acts := Exec(script, hasPatch, steps).m.acts;
    if HostUart in acts {
      var k :| 0 <= k < |acts| && acts[k] == HostUart;
      assert Justified(acts, k);
    }
  }

  // A UART change in a run, spelled out: 0xFC77 was transmitted at j, no script command has
  // been since, and the action just before is an accepting Command Status for it.
  lemma UartAfterBaud(script: Script, hasPatch: bool, steps: seq<Step>, k: nat) returns (j: nat)
    requires ScriptOk(script) && Exec(script, hasPatch, steps).At?
    requires var acts := Exec(script, hasPatch, steps).m.acts; k < |acts| && acts[k] == HostUart
    ensures var acts := Exec(script, hasPatch, steps).m.acts;
      && j < k - 1 && acts[j] == Transmit(BAUD) && (forall l :: j < l < k ==> !ScriptSend(acts[l]))
      && acts[k - 1].Received? && AcceptsBaud(acts[k - 1].e)
  {
    hide Exec, LastIsInFlight, LastSend;
    HandshakeOverRuns(script, hasPatch, steps);
    var acts := Exec(script, hasPatch, steps).m.acts;
    assert Justified(acts, k);
    var i := LastSendMeaning(acts[..k - 1]);
    j := i;
    forall l | j < l < k ensures !ScriptSend(acts[l]) {
      if l < k - 1 {
        assert acts[..k - 1][l] == acts[l];
      }
    }
  }

  // ----- Success does not need that status -----

  // The steps of entry i with a perfect reply, handled in time.
  function Served(script: Script, hasPatch: bool, i: nat): seq<Step>
    requires i < |script|
  {
    if Skipped(script[i], hasPatch) then [Skip]
    else [SendCmd(true, true)] + [Pend] + [Deliver(Command(i), Reply(script[i]), false, false)] + [WakeRunner]
  }

  function ServedUpto(script: Script, hasPatch: bool, i: nat): seq<Step>
    requires i <= |script|
  {
    if i == 0 then [] else ServedUpto(script, hasPatch, i - 1) + Served(script, hasPatch, i - 1)
  }

  // The runner is at entry i with nothing in flight.
  ghost predicate ClearAt(m: Machine, i: nat) {
    m.pc == Ready(i) && m.inflight == multiset{}
  }

  // And the UART is unchanged.
  ghost predicate QuietAt(m: Machine, i: nat) {
    ClearAt(m, i) && HostUart !in m.acts
  }

  lemma ServeOne(script: Script, hasPatch: bool, m: Machine, i: nat)
    returns (m1: Machine, m2: Machine, m3: Machine, m4: Machine)
    requires ScriptOk(script) && i < |script| && ClearAt(m, i) && !Skipped(script[i], hasPatch)
    ensures Enabled(script, hasPatch, m, SendCmd(true, true)) && m1 == Next(script, hasPatch, m, SendCmd(true, true))
    ensures Enabled(script, hasPatch, m1, Pend) && m2 == Next(script, hasPatch, m1, Pend)
    ensures var d := Deliver(Command(i), Reply(script[i]), false, false);
            Enabled(script, hasPatch, m2, d) && m3 == Next(script, hasPatch, m2, d)
    ensures Enabled(script, hasPatch, m3, WakeRunner) && m4 == Next(script, hasPatch, m3, WakeRunner)
    ensures ClearAt(m4, i + 1) && (QuietAt(m, i) ==> QuietAt(m4, i + 1))
    ensures m4.acts == m.acts + [Transmit(script[i].opcode)] + [Received(Reply(script[i]))]
  {
    var d := Deliver(Command(i), Reply(script[i]), false, false);
    m1 := Next(script, hasPatch, m, SendCmd(true, true));
    m2 := Next(script, hasPatch, m1, Pend);
    assert m2.inflight == multiset{Command(i)} && m2.wOpCode == script[i].opcode;
    m3 := Next(script, hasPatch, m2, d);
    assert m3.status == CmdSuccess && m3.inflight == multiset{} && m3.acts == m2.acts + [Received(Reply(script[i]))];
    m4 := Next(script, hasPatch, m3, WakeRunner);
  }

  // One more entry served.
  lemma ServeNext(script: Script, hasPatch: bool, done: seq<Step>, i: nat)
    requires ScriptOk(script) && i < |script|
    requires var r := Exec(script, hasPatch, done); r.At? && QuietAt(r.m, i)
    ensures var r := Exec(script, hasPatch, done + Served(script, hasPatch, i)); r.At? && QuietAt(r.m, i + 1)
  {
    hide Exec, Next, Enabled, ClearAt, Reply, ScriptOk, Skipped;
    var m := Exec(script, hasPatch, done).m;
    if Skipped(script[i], hasPatch) {
      SkipOne(script, hasPatch, m, i);
      ExecSnoc(script, hasPatch, done, Skip);
    } else {
      var d := Deliver(Command(i), Reply(script[i]), false, false);
      var m1, m2, m3, m4 := ServeOne(script, hasPatch, m, i);
      ExecSnoc(script, hasPatch, done, SendCmd(true, true));
      ExecSnoc(script, hasPatch, done + [SendCmd(true, true)], Pend);
      ExecSnoc(script, hasPatch, done + [SendCmd(true, true)] + [Pend], d);
      ExecSnoc(script, hasPatch, done + [SendCmd(true, true)] + [Pend] + [d], WakeRunner);
      assert done + Served(script, hasPatch, i) == done + [SendCmd(true, true)] + [Pend] + [d] + [WakeRunner];
    }
  }

  lemma {:induction false} ServedReaches(script: Script, hasPatch: bool, i: nat)
    requires ScriptOk(script) && i <= |script|
    ensures var r := Exec(script, hasPatch, ServedUpto(script, hasPatch, i)); r.At? && QuietAt(r.m, i)
  {
    hide Served, ScriptOk, Exec, QuietAt;
    if i == 0 {
      QuietStart(script, hasPatch);
    } else {
      ServedReaches(script, hasPatch, i - 1);
      ServeNext(script, hasPatch, ServedUpto(script, hasPatch, i - 1), i - 1);
    }
  }

  lemma QuietStart(script: Script, hasPatch: bool)
    ensures Exec(script, hasPatch, []) == At(INITIAL) && QuietAt(INITIAL, 0)
  {
  }

  lemma SkipOne(script: Script, hasPatch: bool, m: Machine, i: nat)
    requires i < |script| && QuietAt(m, i) && Skipped(script[i], hasPatch)
    ensures Enabled(script, hasPatch, m, Skip) && QuietAt(Next(script, hasPatch, m, Skip), i + 1)
  {
  }

  // Initialisation can succeed without the UART ever changing: a lone Command Complete for
  // 0xFC77 counts as success. By UartIffAccepted that is so exactly when no accepting status came.
  lemma SuccessWithoutUart(script: Script, hasPatch: bool)
    requires ScriptOk(script)
    ensures var r := Exec(script, hasPatch, ServedUpto(script, hasPatch, |script|) + [Finish]);
            r.At? && r.m.pc == Exited(true) && HostUart !in r.m.acts
  {
    hide Exec;
    ServedReaches(script, hasPatch, |script|);
    ExecSnoc(script, hasPatch, ServedUpto(script, hasPatch, |script|), Finish);
  }
}
