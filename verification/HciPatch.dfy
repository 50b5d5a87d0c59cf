// Chunked firmware patch transfer (hardware/bluetooth/mtk6622/radiomod.c). Packets are HCI
// command packets (Bluetooth Core Specification 4.0, Volume 2, Part E, section 5.4.1):
// opcode low byte, opcode high byte, parameter length, parameters.
module HciPatch {
  import opened FixedWidth

  const CHUNK: nat := 240
  const HCI_CMD_MAX_SIZE: nat := 251
  const START: byte := 0
  const CONTINUE: byte := 1
  const END: byte := 2

  // The 8 header bytes with the payload behind them.
  function Packet(kind: byte, payload: seq<byte>): seq<byte>
    requires |payload| <= CHUNK
  {
    [0xC4, 0xFC, |payload| + 5, kind, |payload|, 0, 0, 0] + payload
  }

  // Every packet announces its own length and fits the command buffer.
  lemma PacketLength(kind: byte, payload: seq<byte>)
    requires |payload| <= CHUNK
    ensures var p := Packet(kind, payload);
            && p[2] == |p| - 3 && |p| <= HCI_CMD_MAX_SIZE
            && p[0] == 0xC4 && p[1] == 0xFC && p[3] == kind && p[4] == |payload|
            && p[5] == p[6] == p[7] == 0 && p[8..] == payload
  {
  }

  // ----- The transfer an image stands for -----

  function Tail(rest: seq<byte>): seq<seq<byte>>
    decreases |rest|
  {
    if |rest| < CHUNK then [Packet(END, rest)]
    else [Packet(CONTINUE, rest[..CHUNK])] + Tail(rest[CHUNK..])
  }

  function Transfer(image: seq<byte>): seq<seq<byte>> {
    if |image| < CHUNK then [Packet(END, image)]
    else [Packet(START, image[..CHUNK])] + Tail(image[CHUNK..])
  }

  function Payloads(packets: seq<seq<byte>>): seq<byte>
    requires forall p :: p in packets ==> |p| >= 8
  {
    if packets == [] then [] else packets[0][8..] + Payloads(packets[1..])
  }

  ghost predicate WellFormed(packets: seq<seq<byte>>) {
    forall i :: 0 <= i < |packets| ==>
      && 8 <= |packets[i]| <= HCI_CMD_MAX_SIZE && packets[i][2] == |packets[i]| - 3
      && packets[i][0] == 0xC4 && packets[i][1] == 0xFC
  }

  lemma {:induction false} TailMeaning(rest: seq<byte>)
    ensures |Tail(rest)| == |rest| / CHUNK + 1 && WellFormed(Tail(rest))
    ensures Payloads(Tail(rest)) == rest
    ensures forall i :: 0 <= i < |Tail(rest)| ==> Tail(rest)[i][3] == if i == |Tail(rest)| - 1 then END else CONTINUE
    decreases |rest|
  {
    if |rest| < CHUNK {
      PacketLength(END, rest);
      assert Tail(rest)[1..] == [];
    } else {
      PacketLength(CONTINUE, rest[..CHUNK]);
      TailMeaning(rest[CHUNK..]);
      assert Tail(rest)[1..] == Tail(rest[CHUNK..]);
      assert rest == rest[..CHUNK] + rest[CHUNK..];
    }
  }

  // The transfer carries the image: payloads in order, floor(L/240)+1 packets, a START only
  // in front of at least one more packet, CONTINUE in between, END last.
  lemma TransferMeaning(image: seq<byte>)
    ensures var t := Transfer(image);
      && |t| == |image| / CHUNK + 1 && WellFormed(t) && Payloads(t) == image
      && (forall i :: 0 <= i < |t| ==>
            t[i][3] == if i == |t| - 1 then END else if i == 0 then START else CONTINUE)
  {
    if |image| < CHUNK {
      PacketLength(END, image);
      assert Transfer(image)[1..] == [];
    } else {
      PacketLength(START, image[..CHUNK]);
      TailMeaning(image[CHUNK..]);
      assert Transfer(image)[1..] == Tail(image[CHUNK..]);
      assert image == image[..CHUNK] + image[CHUNK..];
    }
  }

  // ----- The sender and its event handler -----

  // btinit->patch_len, patch_offset, fPatchDone, and the packets transmit accepted so far.
  datatype Patch = Patch(len: nat, offset: nat, done: bool, sent: seq<seq<byte>>)

  datatype Reply = Waiting | Finished(success: bool)

  predicate Bounded(image: seq<byte>, p: Patch) { p.offset + p.len <= |image| }

  // GORMcmd_HCC_WritePatch, bookkeeping included. It sends from the start of the image.
  function WritePatch(image: seq<byte>, p: Patch, accepted: bool): (Patch, bool)
    requires p.len <= |image|
  {
    var last := p.len < CHUNK;
    var n := if last then p.len else CHUNK;
    var packet := Packet(if last then END else START, image[..n]);
    if accepted then (Patch(p.len - n, p.offset + n, last || p.done, p.sent + [packet]), true)
    else (p.(done := false), false)
  }

  // GORMevt_HCE_WritePatch: `good` says the event is a Command Complete for 0xFCC4 with
  // status 0; `granted` and `accepted` are the outcomes of alloc and transmit.
  function OnComplete(image: seq<byte>, p: Patch, good: bool, granted: bool, accepted: bool): (Patch, Reply)
    requires Bounded(image, p)
  {
    if !good then (p.(done := false), Finished(false))
    else if p.len == 0 && p.done then (p.(done := false), Finished(true))
    else if !granted || !accepted then (p.(done := false), Finished(false))
    else if p.len >= CHUNK then
      (p.(len := p.len - CHUNK, offset := p.offset + CHUNK,
          sent := p.sent + [Packet(CONTINUE, image[p.offset..p.offset + CHUNK])]), Waiting)
    else
      // patch_offset grows by the already cleared patch_len, that is by nothing
      (p.(len := 0, done := true, sent := p.sent + [Packet(END, image[p.offset..p.offset + p.len])]), Waiting)
  }

  // The outcomes of a completion: a verdict without a further packet, or one more packet.
  lemma CompletionCases(image: seq<byte>, p: Patch, good: bool, granted: bool, accepted: bool)
    requires Bounded(image, p)
    ensures var r, left := OnComplete(image, p, good, granted, accepted), !(p.len == 0 && p.done);
      if good && left && granted && accepted
      then r == OnComplete(image, p, true, granted, accepted) && r.1 == Waiting
      else r == (p.(done := false), Finished(good && !left))
  {
    hide Packet;
  }

  // Between packets: what has been sent, followed by the tail still to send, is the transfer.
  ghost predicate OnTrack(image: seq<byte>, p: Patch) {
    && Bounded(image, p)
    && if p.done then p.len == 0 && p.sent == Transfer(image)
       else p.offset + p.len == |image| && p.sent + Tail(image[p.offset..]) == Transfer(image)
  }

  lemma WritePatchOnTrack(image: seq<byte>, accepted: bool)
    ensures var (p, ok) := WritePatch(image, Patch(|image|, 0, false, []), accepted);
            ok == accepted && if ok then OnTrack(image, p) else p == Patch(|image|, 0, false, [])
  {
    assert image[..|image|] == image;
  }

  lemma OnCompleteOnTrack(image: seq<byte>, p: Patch, good: bool, granted: bool, accepted: bool)
    requires OnTrack(image, p)
    ensures var (p', r) := OnComplete(image, p, good, granted, accepted);
      && (r == Waiting ==> OnTrack(image, p') && |p'.sent| == |p.sent| + 1)
      && (r == Finished(true) <==> good && p.done)
      && (r == Finished(true) ==> p'.sent == Transfer(image))
      && (r.Finished? ==> p'.sent == p.sent)
  {
    if good && !p.done && granted && accepted {
      var rest := image[p.offset..];
      if p.len >= CHUNK {
        assert rest[..CHUNK] == image[p.offset..p.offset + CHUNK];
        assert rest[CHUNK..] == image[p.offset + CHUNK..];
        assert (p.sent + [Packet(CONTINUE, rest[..CHUNK])]) + Tail(rest[CHUNK..]) == p.sent + Tail(rest);
      } else {
        assert image[p.offset..p.offset + p.len] == rest;
      }
    }
  }

  datatype Completion = Completion(good: bool, granted: bool, accepted: bool)

  // The whole exchange: the first packet is accepted, then completions arrive one by one.
  function Exchange(image: seq<byte>, cs: seq<Completion>): (Patch, Reply)
    decreases |cs|
  {
    if cs == [] then (WritePatch(image, Patch(|image|, 0, false, []), true).0, Waiting)
    else
      var (p, r) := Exchange(image, cs[..|cs| - 1]);
      if r.Finished? || !Bounded(image, p) then (p, r)
      else OnComplete(image, p, cs[|cs| - 1].good, cs[|cs| - 1].granted, cs[|cs| - 1].accepted)
  }

  // Whatever the controller, the allocator and the transmitter do: packets go out in the order
  // of the transfer, and success is reported only when all of them have gone out.
  lemma {:induction false} ExchangeSafe(image: seq<byte>, cs: seq<Completion>)
    ensures var (p, r) := Exchange(image, cs);
      && p.sent <= Transfer(image)
      && (r == Waiting ==> OnTrack(image, p) && |p.sent| == |cs| + 1)
      && (r == Finished(true) ==> p.sent == Transfer(image) && |cs| >= |image| / CHUNK + 1)
  {
    TransferMeaning(image);
    if cs == [] {
      WritePatchOnTrack(image, true);
    } else {
      var c := cs[|cs| - 1];
      ExchangeSafe(image, cs[..|cs| - 1]);
      var (p, r) := Exchange(image, cs[..|cs| - 1]);
      if r == Waiting {
        OnCompleteOnTrack(image, p, c.good, c.granted, c.accepted);
        OnTrackPrefix(image, OnComplete(image, p, c.good, c.granted, c.accepted).0);
      }
    }
  }

  lemma OnTrackPrefix(image: seq<byte>, p: Patch)
    ensures OnTrack(image, p) ==> p.sent <= Transfer(image)
  {
  }

  // If everything succeeds, exactly floor(L/240)+1 completions finish the transfer successfully.
  lemma {:induction false} ExchangeSucceeds(image: seq<byte>, cs: seq<Completion>)
    requires forall i :: 0 <= i < |cs| ==> cs[i] == Completion(true, true, true)
    ensures var (p, r) := Exchange(image, cs);
      && (|cs| <= |image| / CHUNK ==> r == Waiting)
      && (|cs| == |image| / CHUNK + 1 ==> r == Finished(true) && p.sent == Transfer(image))
  {
    TransferMeaning(image);
    ExchangeSafe(image, cs);
    if cs != [] {
      var init := cs[..|cs| - 1];
      ExchangeSucceeds(image, init);
      ExchangeSafe(image, init);
      var (p, r) := Exchange(image, init);
      if r == Waiting {
        OnCompleteOnTrack(image, p, true, true, true);
        TrackDone(image, p);
      }
    }
  }

  // Everything is sent exactly when the last packet is.
  lemma TrackDone(image: seq<byte>, p: Patch)
    requires OnTrack(image, p)
    ensures p.done <==> |p.sent| == |image| / CHUNK + 1
  {
    TransferMeaning(image);
    if !p.done {
      assert |p.sent| + |Tail(image[p.offset..])| == |Transfer(image)|;
      TailMeaning(image[p.offset..]);
    }
  }
}
