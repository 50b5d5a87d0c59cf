// Firmware initialisation that succeeds, image and all, although the host UART never changed
// (hardware/bluetooth/mtk6622/radiomod.c).
module HciSilent {
  import opened FixedWidth
  import opened HciScript
  import HciPatch
  import opened HciDownload

  lemma RunSnoc(script: Script, image: seq<byte>, cs: seq<Choice>, c: Choice)
    requires Can(script, image, Run(script, image, cs), c)
    ensures Run(script, image, cs + [c]) == NextOf(script, image, Run(script, image, cs), c)
  {
    assert (cs + [c])[..|cs|] == cs;
  }

  // The runner is at entry i, nothing is in flight, the UART is unchanged, and the transfer
  // has not begun unless its entry x is behind.
  ghost predicate Quiet(image: seq<byte>, s: System, i: nat, x: nat) {
    QuietAt(s.m, i) && (i <= x ==> s.patch == StartOf(image).patch)
  }

  // ----- An ordinary or baud-rate entry -----

  // Sent, pending, answered by a lone Command Complete, and done.
  lemma ServeCommand(script: Script, image: seq<byte>, cs: seq<Choice>, i: nat, x: nat) returns (cs': seq<Choice>)
    requires ScriptOk(script) && i < |script| && script[i].kind != PatchLoad
    requires Quiet(image, Run(script, image, cs), i, x)
    ensures Quiet(image, Run(script, image, cs'), i + 1, x)
  {
    hide Run, Next, Enabled, ClearAt, ScriptOk;
    var go, reply := Runner(true, true), Callback(Command(i), Reply(script[i]), false, false);
    var m1, m2, m3, m4 := ServeOne(script, image != [], Run(script, image, cs).m, i);
    ServeSteps(script, Run(script, image, cs).m, i, m1, m2, m3, m4, image != []);
    RunSnoc(script, image, cs, go);
    RunSnoc(script, image, cs + [go], go);
    RunSnoc(script, image, cs + [go] + [go], reply);
    RunSnoc(script, image, cs + [go] + [go] + [reply], go);
    cs' := cs + [go] + [go] + [reply] + [go];
  }

  lemma ServeSteps(script: Script, m: Machine, i: nat, m1: Machine, m2: Machine, m3: Machine, m4: Machine,
                   hasPatch: bool)
    requires QuietAt(m, i) && i < |script| && !Skipped(script[i], hasPatch)
    requires Enabled(script, hasPatch, m, SendCmd(true, true)) && m1 == Next(script, hasPatch, m, SendCmd(true, true))
    requires Enabled(script, hasPatch, m1, Pend) && m2 == Next(script, hasPatch, m1, Pend)
    requires var d := Deliver(Command(i), Reply(script[i]), false, false);
             Enabled(script, hasPatch, m2, d) && m3 == Next(script, hasPatch, m2, d)
    requires Enabled(script, hasPatch, m3, WakeRunner) && m4 == Next(script, hasPatch, m3, WakeRunner)
    requires QuietAt(m4, i + 1)
    ensures m.pc == Ready(i) && m1.pc == Sent(i) && m2.pc == Waiting(i) && m3.pc == Waiting(i) && m4.pc == Ready(i + 1)
  {
  }

  // ----- The patch entry -----

  function Goods(n: nat): seq<HciPatch.Completion> { seq(n, _ => HciPatch.Completion(true, true, true)) }

  // n good completions have been handled and the transfer goes on.
  ghost predicate Loading(image: seq<byte>, s: System, x: nat, n: nat) {
    && s.m.pc == Waiting(x) && s.m.status == CmdPending && s.m.inflight == multiset{Command(x)}
    && HostUart !in s.m.acts && (s.patch, HciPatch.Waiting) == HciPatch.Exchange(image, Goods(n))
  }

  lemma LoadStart(script: Script, image: seq<byte>, s: System, x: nat) returns (s1: System, s2: System)
    requires image != [] && ScriptOk(script) && x < |script| && script[x].kind == PatchLoad
    requires Quiet(image, s, x, x)
    ensures HciPatch.Bounded(image, s.patch) && Can(script, image, s, Runner(true, true))
    ensures s1 == NextOf(script, image, s, Runner(true, true))
    ensures HciPatch.Bounded(image, s1.patch) && Can(script, image, s1, Runner(true, true))
    ensures s2 == NextOf(script, image, s1, Runner(true, true)) && Loading(image, s2, x, 0)
  {
    hide HciPatch.Packet;
    s1 := NextOf(script, image, s, Runner(true, true));
    assert s1.m.inflight == multiset{Command(x)} && Goods(0) == [];
    s2 := NextOf(script, image, s1, Runner(true, true));
  }

  lemma ExchangeNext(image: seq<byte>, p: HciPatch.Patch, n: nat)
    requires (p, HciPatch.Waiting) == HciPatch.Exchange(image, Goods(n)) && HciPatch.Bounded(image, p)
    ensures HciPatch.Exchange(image, Goods(n + 1)) == HciPatch.OnComplete(image, p, true, true, true)
  {
    hide HciPatch.OnComplete;
    assert Goods(n + 1)[..n] == Goods(n);
  }

  // What the patch handler does with a good completion, by whether a packet is left.
  lemma GoodCompletion(script: Script, image: seq<byte>, s: System, x: nat, n: nat)
    requires ScriptOk(script) && x < |script| && script[x].kind == PatchLoad
    requires Loading(image, s, x, n) && n <= |image| / HciPatch.CHUNK && HciPatch.Bounded(image, s.patch)
    ensures var c := Callback(Command(x), Reply(script[x]), true, true);
      && Can(script, image, s, c)
      && var s1 := NextOf(script, image, s, c);
         if n < |image| / HciPatch.CHUNK then Loading(image, s1, x, n + 1)
         else && s1.m.pc == Waiting(x) && s1.m.status == CmdSuccess
              && s1.m.inflight == multiset{} && HostUart !in s1.m.acts
  {
    hide HciPatch.Packet, HciPatch.Exchange;
    ExchangeNext(image, s.patch, n);
    HciPatch.ExchangeSucceeds(image, Goods(n + 1));
    var m := s.m.(inflight := s.m.inflight - multiset{Command(x)});
    assert m.inflight == multiset{};
  }

  lemma {:induction false} LoadRun(script: Script, image: seq<byte>, cs: seq<Choice>, x: nat, n: nat)
    returns (cs': seq<Choice>)
    requires ScriptOk(script) && x < |script| && script[x].kind == PatchLoad
    requires Loading(image, Run(script, image, cs), x, 0) && n <= |image| / HciPatch.CHUNK
    ensures Loading(image, Run(script, image, cs'), x, n)
  {
    hide Run, NextOf, Can, Loading, ScriptOk;
    cs' := cs;
    if n > 0 {
      cs' := LoadRun(script, image, cs, x, n - 1);
      GoodCompletion(script, image, Run(script, image, cs'), x, n - 1);
      RunSnoc(script, image, cs', Callback(Command(x), Reply(script[x]), true, true));
      cs' := cs' + [Callback(Command(x), Reply(script[x]), true, true)];
    }
  }

  lemma WakeUpAfter(script: Script, image: seq<byte>, s: System, x: nat)
    requires s.m.pc == Waiting(x) && s.m.status == CmdSuccess && s.m.inflight == multiset{} && HostUart !in s.m.acts
    requires HciPatch.Bounded(image, s.patch)
    ensures Can(script, image, s, Runner(true, true))
    ensures Quiet(image, NextOf(script, image, s, Runner(true, true)), x + 1, x)
  {
  }

  lemma ServePatch(script: Script, image: seq<byte>, cs: seq<Choice>, x: nat) returns (cs': seq<Choice>)
    requires image != [] && ScriptOk(script) && x < |script| && script[x].kind == PatchLoad
    requires Quiet(image, Run(script, image, cs), x, x)
    ensures Quiet(image, Run(script, image, cs'), x + 1, x)
  {
    hide Run, NextOf, Can, Loading, Quiet, ScriptOk;
    var go, reply := Runner(true, true), Callback(Command(x), Reply(script[x]), true, true);
    var s1, s2 := LoadStart(script, image, Run(script, image, cs), x);
    RunSnoc(script, image, cs, go);
    RunSnoc(script, image, cs + [go], go);
    cs' := LoadRun(script, image, cs + [go] + [go], x, |image| / HciPatch.CHUNK);
    GoodCompletion(script, image, Run(script, image, cs'), x, |image| / HciPatch.CHUNK);
    RunSnoc(script, image, cs', reply);
    WakeUpAfter(script, image, Run(script, image, cs' + [reply]), x);
    RunSnoc(script, image, cs' + [reply], go);
    cs' := cs' + [reply] + [go];
  }

  // ----- The whole script -----

  lemma SkipPatch(script: Script, image: seq<byte>, s: System, i: nat, x: nat)
    requires image == [] && i < |script| && script[i].kind == PatchLoad && Quiet(image, s, i, x)
    requires HciPatch.Bounded(image, s.patch)
    ensures Can(script, image, s, Runner(true, true))
    ensures Quiet(image, NextOf(script, image, s, Runner(true, true)), i + 1, x)
  {
  }

  lemma {:induction false} QuietUpto(script: Script, image: seq<byte>, x: nat, i: nat) returns (cs: seq<Choice>)
    requires ScriptOk(script) && OnlyPatch(script, x) && i <= |script|
    ensures Quiet(image, Run(script, image, cs), i, x)
    decreases i
  {
    cs := [];
    if i > 0 {
      hide Run, NextOf, Can, Quiet, ScriptOk;
      cs := QuietUpto(script, image, x, i - 1);
      if script[i - 1].kind != PatchLoad {
        cs := ServeCommand(script, image, cs, i - 1, x);
      } else if image == [] {
        SkipPatch(script, image, Run(script, image, cs), i - 1, x);
        RunSnoc(script, image, cs, Runner(true, true));
        cs := cs + [Runner(true, true)];
      } else {
        cs := ServePatch(script, image, cs, x);
      }
    }
  }

  // For every image there is a run that reports success, with the whole image across, in which
  // the host UART was never changed.
  lemma SilentDownload(script: Script, image: seq<byte>, x: nat) returns (cs: seq<Choice>)
    requires ScriptOk(script) && OnlyPatch(script, x)
    ensures var s := Run(script, image, cs);
      && s.m.pc == Exited(true) && HostUart !in s.m.acts
      && (image != [] ==> s.patch.sent == HciPatch.Transfer(image))
  {
    hide Run;
    cs := QuietUpto(script, image, x, |script|);
    RunSnoc(script, image, cs, Runner(true, true));
    cs := cs + [Runner(true, true)];
    SuccessMeansDownloaded(script, image, cs, x);
  }
}
