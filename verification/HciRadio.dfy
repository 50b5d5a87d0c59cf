// The radio module's globals and callbacks (hardware/bluetooth/mtk6622/radiomod.c): the
// imperative code behind the steps of HciScript and the packets of HciPatch, with the
// ownership of every HCI buffer it touches.
module HciRadio {
  import opened FixedWidth
  import opened HciScript
  import HciPatch

  type BufferId = nat

  // Buffer ownership: ids below nextId have been allocated or received; `live` ones are owned
  // by this module; `released` counts hand-overs to transmit and deallocations.
  class BufferPool {
    var live: set<BufferId>
    var released: multiset<BufferId>
    var nextId: BufferId

    // Every buffer is either owned here or was given away exactly once.
    ghost predicate Ledger()
      reads this
    {
      && (forall b :: b in live ==> b < nextId && released[b] == 0)
      && (forall b :: 0 <= b < nextId && b !in live ==> released[b] == 1)
      && (forall b :: b >= nextId ==> released[b] == 0)
    }

    constructor ()
      ensures Ledger() && live == {}
    {
      live, released, nextId := {}, multiset{}, 0;
    }

    // A new buffer, from alloc or with a received event in it.
    method Obtain() returns (b: BufferId)
      requires Ledger()
      modifies this
      ensures Ledger() && b == old(nextId) && live == old(live) + {b} && b !in old(live) && released == old(released)
    {
      b := nextId;
      nextId, live := nextId + 1, live + {b};
    }

    // dealloc, or transmit taking the packet.
    method Release(b: BufferId)
      requires Ledger() && b in live
      modifies this
      ensures Ledger() && live == old(live) - {b} && released == old(released) + multiset{b} && nextId == old(nextId)
    {
      live, released := live - {b}, released + multiset{b};
    }
  }

  class Radio {
    const script: Script
    const image: seq<byte>            // btinit->patch_data
    const pool: BufferPool
    var m: Machine                    // cmd_status, wOpCode, and what has happened so far
    var patch: HciPatch.Patch         // patch_len, patch_offset, fPatchDone and the packets accepted

    constructor (script: Script, image: seq<byte>)
      ensures this.script == script && this.image == image
      ensures m == INITIAL && patch == HciPatch.Patch(|image|, 0, false, [])
      ensures fresh(pool) && pool.Ledger() && pool.live == {}
    {
      pool := new BufferPool();
      this.script, this.image := script, image;
      m, patch := INITIAL, HciPatch.Patch(|image|, 0, false, []);
    }

    // Transmit owns the buffer if and only if it accepts the packet.
    method Transmit(b: BufferId, opcode: int, accepted: bool) returns (ok: bool)
      requires pool.Ledger() && b in pool.live
      modifies pool, this`m
      ensures pool.Ledger() && ok == accepted
      ensures pool.live == if accepted then old(pool.live) - {b} else old(pool.live)
      ensures m == if accepted then old(m).(acts := old(m).acts + [Act.Transmit(opcode)]) else old(m)
    {
      if accepted {
        pool.Release(b);
        m := m.(acts := m.acts + [Act.Transmit(opcode)]);
      }
      ok := accepted;
    }

    // The locked tail of every callback that has a verdict.
    method Report(index: nat, e: Event, ok: bool)
      modifies this`m
      ensures m == ReportStatus(old(m), index, e, ok)
    {
      m := m.(status := if ok then CmdSuccess else CmdFail);
      if ok {
        m := m.(finished := m.finished + [(index, e)]);
      }
      if m.pc.Sent? {
        m := m.(early := true);
      }
    }

    // GORMevt_HCE_Common_Complete.
    method OnCommonComplete(b: BufferId, index: nat, e: Event)
      requires pool.Ledger() && b in pool.live && index < |script| && script[index].kind == Common
      modifies this`m, pool
      ensures pool.Ledger() && pool.live == old(pool.live) - {b}
      ensures m == OnCommandEvent(script, old(m), index, e, false, false)
    {
      m := m.(inflight := m.inflight - multiset{Command(index)}, acts := m.acts + [Received(e)]);
      var success := e.code == COMMAND_COMPLETE && e.opcode == m.wOpCode && e.status == 0;
      pool.Release(b);
      Report(index, e, success);
    }

    // GORMevt_HCE_ChangeBaudRate, for the command's own transmission.
    method OnBaudCommand(b: BufferId, index: nat, e: Event, accepted: bool)
      requires pool.Ledger() && b in pool.live && index < |script| && script[index].kind == BaudRate
      modifies this`m, pool
      ensures pool.Ledger() && pool.live == old(pool.live) - {b}
      ensures m == OnCommandEvent(script, old(m), index, e, false, accepted)
    {
      hide BufferPool.Ledger;
      m := m.(inflight := m.inflight - multiset{Command(index)}, acts := m.acts + [Received(e)]);
      var success := false;
      if e.code == COMMAND_STATUS {
        if e.opcode == BAUD && e.status == 0 {
          m := m.(acts := m.acts + [HostUart]);
          var ok := Transmit(b, WAKE_UP, accepted);   // the event buffer is sent back as the wake-up packet
          if ok {
            m := m.(inflight := m.inflight + multiset{Command(index)} + multiset{WakeUp(index)});
            return;
          }
        }
      } else if e.code == COMMAND_COMPLETE {
        if e.opcode == WAKE_UP {
          if e.status == 0 {
            pool.Release(b);
            return;
          }
        } else if e.opcode == BAUD {
          success := e.status == 0;
        }
      }
      pool.Release(b);
      Report(index, e, success);
    }

    // The same handler, for the wake-up packet; events reach it by opcode.
    method OnWakeUp(b: BufferId, index: nat, e: Event)
      requires pool.Ledger() && b in pool.live && e.opcode == WAKE_UP
      modifies this`m, pool
      ensures pool.Ledger() && pool.live == old(pool.live) - {b}
      ensures m == OnWakeEvent(old(m), index, e, false)
    {
      m := m.(inflight := m.inflight - multiset{WakeUp(index)}, acts := m.acts + [Received(e)]);
      pool.Release(b);
      if e.code == COMMAND_COMPLETE && e.status == 0 {
        return;
      }
      m := m.(status := CmdFail);
    }

    // Builds one patch packet byte by byte.
    method BuildPatch(kind: byte, from: nat, n: nat) returns (packet: seq<byte>)
      requires from + n <= |image| && n <= HciPatch.CHUNK
      ensures packet == HciPatch.Packet(kind, image[from..from + n])
    {
      var hdr := new byte[8] [0xC4, 0xFC, 0xF5, kind, 0xF0, 0x00, 0x00, 0x00];
      hdr[4] := n;
      hdr[2] := hdr[4] + 5;
      packet := hdr[..] + image[from..from + n];
    }

    // Sends the next patch packet from the handler: a CONTINUE chunk, or the END with the rest.
    method SendPatchNext(granted: bool, accepted: bool) returns (ok: bool)
      requires pool.Ledger() && HciPatch.Bounded(image, patch) && !(patch.len == 0 && patch.done)
      modifies this, pool
      ensures pool.Ledger() && pool.live == old(pool.live) && ok == (granted && accepted)
      ensures patch == if ok then HciPatch.OnComplete(image, old(patch), true, granted, accepted).0 else old(patch)
      ensures m == if ok then old(m).(acts := old(m).acts + [Act.Transmit(WRITE_PATCH)]) else old(m)
    {
      if !granted {
        return false;
      }
      var cmd := pool.Obtain();
      var last := patch.len < HciPatch.CHUNK;
      var n := if last then patch.len else HciPatch.CHUNK;
      var packet := BuildPatch(if last then HciPatch.END else HciPatch.CONTINUE, patch.offset, n);
      ok := Transmit(cmd, WRITE_PATCH, accepted);
      if !ok {
        pool.Release(cmd);
        return;
      }
      patch := patch.(len := patch.len - n, sent := patch.sent + [packet]);
      if last {
        patch := patch.(done := true);      // patch_offset += patch_len adds the cleared patch_len
      } else {
        patch := patch.(offset := patch.offset + n);
      }
    }

    // GORMevt_HCE_WritePatch.
    method OnWritePatch(b: BufferId, index: nat, e: Event, granted: bool, accepted: bool)
      returns (ghost reply: HciPatch.Reply)
      requires pool.Ledger() && b in pool.live && index < |script| && script[index].kind == PatchLoad
      requires HciPatch.Bounded(image, patch)
      modifies this, pool
      ensures pool.Ledger() && pool.live == old(pool.live) - {b}
      ensures (patch, reply) == HciPatch.OnComplete(image, old(patch), Completes(e, WRITE_PATCH), granted, accepted)
      ensures var more := !(old(patch).len == 0 && old(patch).done);
              m == OnCommandEvent(script, old(m), index, e, more, granted && accepted)
    {
      hide BufferPool.Ledger, HciPatch.OnComplete;
      HciPatch.CompletionCases(image, patch, Completes(e, WRITE_PATCH), granted, accepted);
      m := m.(inflight := m.inflight - multiset{Command(index)}, acts := m.acts + [Received(e)]);
      pool.Release(b);
      var success := false;
      if e.code == COMMAND_COMPLETE && e.opcode == WRITE_PATCH && e.status == 0 {
        if patch.len == 0 && patch.done {
          success := true;
        } else {
          var ok := SendPatchNext(granted, accepted);
          if ok {
            m := m.(inflight := m.inflight + multiset{Command(index)});
            return HciPatch.Waiting;
          }
        }
      }
      patch := patch.(done := false);
      Report(index, e, success);
      reply := HciPatch.Finished(success);
    }

    // One turn of the script loop up to the transmission (skipped entries apart): the command
    // buffer is accepted by transmit or given back, on every path.
    method SendCommand(granted: bool, accepted: bool)
      requires pool.Ledger() && Enabled(script, image != [], m, SendCmd(granted, accepted))
      requires script[m.pc.i].kind == PatchLoad ==> patch.len <= |image|
      modifies this, pool
      ensures pool.Ledger() && pool.live == old(pool.live)
      ensures m == Next(script, image != [], old(m), SendCmd(granted, accepted))
      ensures patch == if granted && script[old(m).pc.i].kind == PatchLoad
                       then HciPatch.WritePatch(image, old(patch), accepted).0 else old(patch)
    {
      hide BufferPool.Ledger, HciPatch.Packet, HciPatch.WritePatch;
      if !granted {
        m := m.(pc := Exited(false));
        return;
      }
      var i := m.pc.i;
      var b := pool.Obtain();
      m := m.(wOpCode := script[i].opcode, early := false);
      var ok;
      if script[i].kind == PatchLoad {
        ok := SendPatchStart(b, accepted);
      } else {
        ok := Transmit(b, m.wOpCode, accepted);
      }
      if ok {
        m := m.(inflight := m.inflight + multiset{Command(i)}, pc := Sent(i));
      } else {
        pool.Release(b);
        m := m.(pc := Exited(false));
      }
    }

    // GORMcmd_HCC_WritePatch.
    method SendPatchStart(b: BufferId, accepted: bool) returns (ok: bool)
      requires pool.Ledger() && b in pool.live && patch.len <= |image|
      modifies pool, this
      ensures pool.Ledger() && ok == accepted
      ensures pool.live == if accepted then old(pool.live) - {b} else old(pool.live)
      ensures m == if accepted then old(m).(acts := old(m).acts + [Act.Transmit(old(m).wOpCode)]) else old(m)
      ensures (patch, ok) == HciPatch.WritePatch(image, old(patch), accepted)
    {
      hide BufferPool.Ledger, HciPatch.Packet;
      var last := patch.len < HciPatch.CHUNK;
      var n := if last then patch.len else HciPatch.CHUNK;
      var packet := BuildPatch(if last then HciPatch.END else HciPatch.START, 0, n);
      if last {
        patch := patch.(done := true);
      }
      ok := Transmit(b, m.wOpCode, accepted);
      if ok {
        patch := patch.(len := patch.len - n, offset := patch.offset + n, sent := patch.sent + [packet]);
      } else {
        patch := patch.(done := false);
      }
    }
  }
}
