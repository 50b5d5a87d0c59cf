// ComputeDifferences and its workers (releasetools/common.py) as interleaved steps: a lock, a
// shared iterator over the differences in decreasing target size, and any number of workers.
module WorkerPool {

  // The differences in the order of the sorted list; only the target sizes matter here.
  type Items = seq<nat>

  ghost predicate LargestFirst(items: Items) {
    forall i, j :: 0 <= i < j < |items| ==> items[i] >= items[j]
  }

  datatype Worker =
    | Starting                          // before the first acquire
    | Holding                           // has the lock, about to advance the iterator
    | Computing(item: nat)              // has released it, in ComputePatch
    | Computed(item: nat, ok: bool)     // about to take the lock again; ok: a patch was produced
    | Reporting(item: nat, ok: bool)    // has the lock, printing
    | Done
    | Dead                              // left by an exception, without releasing the lock

  datatype Option = None | Some(w: nat)

  datatype Pool = Pool(lock: Option, next: nat, workers: seq<Worker>, computed: seq<nat>)

  datatype Step = Acquire(w: nat) | Advance(w: nat) | Compute(w: nat, ok: bool) | Reacquire(w: nat) | Report(w: nat)

  function Start(k: nat): Pool { Pool(None, 0, seq(k, _ => Starting), []) }

  predicate Enabled(items: Items, p: Pool, s: Step) {
    s.w < |p.workers| &&
    match s
    case Acquire(w) => p.workers[w] == Starting && p.lock == None
    case Advance(w) => p.workers[w] == Holding
    case Compute(w, _) => p.workers[w].Computing?
    case Reacquire(w) => p.workers[w].Computed? && p.lock == None
    case Report(w) => p.workers[w].Reporting? && p.workers[w].item < |items|
  }

  function Next(items: Items, p: Pool, s: Step): Pool
    requires Enabled(items, p, s)
  {
    var w := s.w;
    match s
    case Acquire(_) => p.(lock := Some(w), workers := p.workers[w := Holding])
    case Advance(_) =>
      if p.next < |items| then p.(lock := None, next := p.next + 1, workers := p.workers[w := Computing(p.next)])
      else p.(lock := None, workers := p.workers[w := Done])
    case Compute(_, ok) =>
      var i := p.workers[w].item;
      p.(workers := p.workers[w := Computed(i, ok)], computed := p.computed + [i])
    case Reacquire(_) =>
      p.(lock := Some(w), workers := p.workers[w := Reporting(p.workers[w].item, p.workers[w].ok)])
    case Report(_) =>
      // the percentage printed for a produced patch divides by the target size
      if p.workers[w].ok && items[p.workers[w].item] == 0 then p.(workers := p.workers[w := Dead])
      else p.(workers := p.workers[w := Holding])
  }

  // ----- The invariant -----

  predicate HasLock(x: Worker) { x.Holding? || x.Reporting? || x.Dead? }

  // The lock is held by exactly the worker that says so.
  ghost predicate LockAgrees(p: Pool) {
    && (p.lock.Some? ==> p.lock.w < |p.workers|)
    && forall w :: 0 <= w < |p.workers| ==> (HasLock(p.workers[w]) <==> p.lock == Some(w))
  }

  // Item i is being computed by worker w.
  predicate At(p: Pool, w: nat, i: nat) { w < |p.workers| && p.workers[w] == Computing(i) }

  // Every item handed out is either computed or with exactly one worker; none twice.
  ghost predicate Accounted(items: Items, p: Pool) {
    && p.next <= |items|
    && (forall w: nat, i: nat :: At(p, w, i) ==> i < p.next && i !in p.computed)
    && (forall w: nat, v: nat, i: nat :: At(p, w, i) && At(p, v, i) ==> w == v)
    && (forall a, b :: 0 <= a < b < |p.computed| ==> p.computed[a] != p.computed[b])
    && (forall a :: 0 <= a < |p.computed| ==> p.computed[a] < p.next)
    && (forall i :: 0 <= i < p.next ==> i in p.computed || exists w: nat :: At(p, w, i))
  }

  ghost predicate Inv(items: Items, p: Pool) {
    && LockAgrees(p)
    && Accounted(items, p)
    && (forall w :: 0 <= w < |p.workers| && p.workers[w] == Done ==> p.next == |items|)
    && (forall w :: 0 <= w < |p.workers| && (p.workers[w].Computed? || p.workers[w].Reporting?) ==>
          p.workers[w].item < |items|)
  }

  // A step of another kind leaves the hand-outs alone.
  lemma SameHandouts(items: Items, p: Pool, q: Pool)
    requires Accounted(items, p) && q.next == p.next && q.computed == p.computed
    requires forall w: nat, i: nat :: At(q, w, i) <==> At(p, w, i)
    ensures Accounted(items, q)
  {
    forall i | 0 <= i < q.next ensures i in q.computed || exists w: nat :: At(q, w, i) {
      if i !in p.computed {
        var w: nat :| At(p, w, i);
        assert At(q, w, i);
      }
    }
  }

  lemma AdvanceAccounts(items: Items, p: Pool, w: nat)
    requires Accounted(items, p) && w < |p.workers| && !p.workers[w].Computing? && p.next < |items|
    ensures Accounted(items, p.(lock := None, next := p.next + 1, workers := p.workers[w := Computing(p.next)]))
  {
    var q := p.(lock := None, next := p.next + 1, workers := p.workers[w := Computing(p.next)]);
    assert forall v: nat, i: nat :: At(q, v, i) <==> At(p, v, i) || (v == w && i == p.next);
    forall i | 0 <= i < q.next ensures i in q.computed || exists v: nat :: At(q, v, i) {
      if i == p.next {
        assert At(q, w, i);
      } else if i !in p.computed {
        var v: nat :| At(p, v, i);
        assert At(q, v, i);
      }
    }
  }

  lemma ComputeAccounts(items: Items, p: Pool, w: nat, ok: bool)
    requires Accounted(items, p) && w < |p.workers| && p.workers[w].Computing?
    ensures var i := p.workers[w].item;
            Accounted(items, p.(workers := p.workers[w := Computed(i, ok)], computed := p.computed + [i]))
  {
    var j := p.workers[w].item;
    var q := p.(workers := p.workers[w := Computed(j, ok)], computed := p.computed + [j]);
    assert At(p, w, j);
    assert forall v: nat, i: nat :: At(q, v, i) <==> At(p, v, i) && v != w;
    forall i | 0 <= i < q.next ensures i in q.computed || exists v: nat :: At(q, v, i) {
      if i in p.computed {
        assert i in q.computed;
      } else {
        var v: nat :| At(p, v, i);
        if v == w {
          assert q.computed[|p.computed|] == i;
        } else {
          assert At(q, v, i);
        }
      }
    }
  }

  lemma StepKeepsInv(items: Items, p: Pool, s: Step)
    requires Inv(items, p) && Enabled(items, p, s)
    ensures Inv(items, Next(items, p, s))
  {
    var q := Next(items, p, s);
    match s
    case Advance(w) =>
      if p.next < |items| {
        AdvanceAccounts(items, p, w);
      } else {
        SameHandouts(items, p, q);
      }
    case Compute(w, ok) =>
      assert At(p, w, p.workers[w].item);
      ComputeAccounts(items, p, w, ok);
    case _ => SameHandouts(items, p, q);
  }

  // ----- Runs -----

  datatype Result = Stopped | Reached(p: Pool)

  function Exec(items: Items, k: nat, steps: seq<Step>): Result {
    if steps == [] then Reached(Start(k))
    else
      match Exec(items, k, steps[..|steps| - 1])
      case Stopped => Stopped
      case Reached(p) =>
        if Enabled(items, p, steps[|steps| - 1]) then Reached(Next(items, p, steps[|steps| - 1])) else Stopped
  }

  lemma {:induction false} RunKeepsInv(items: Items, k: nat, steps: seq<Step>)
    ensures var r := Exec(items, k, steps); r.Reached? ==> Inv(items, r.p) && |r.p.workers| == k
  {
    if steps != [] {
      RunKeepsInv(items, k, steps[..|steps| - 1]);
      var r := Exec(items, k, steps[..|steps| - 1]);
      if r.Reached? && Enabled(items, r.p, steps[|steps| - 1]) {
        StepKeepsInv(items, r.p, steps[|steps| - 1]);
      }
    }
  }

  // ----- Termination -----

  function Weight(x: Worker): nat {
    match x
    case Starting => 2
    case Holding => 1
    case Computing(_) => 4
    case Computed(_, _) => 3
    case Reporting(_, _) => 2
    case Done => 0
    case Dead => 0
  }

  function Total(ws: seq<Worker>): nat {
    if ws == [] then 0 else Weight(ws[0]) + Total(ws[1..])
  }

  lemma {:induction false} TotalUpdate(ws: seq<Worker>, w: nat, x: Worker)
    requires w < |ws|
    ensures Total(ws[w := x]) == Total(ws) - Weight(ws[w]) + Weight(x)
  {
    if w == 0 {
      assert ws[0 := x][1..] == ws[1..];
    } else {
      assert ws[w := x][1..] == ws[1..][w - 1 := x];
      TotalUpdate(ws[1..], w - 1, x);
    }
  }

  lemma {:induction false} TotalStart(k: nat)
    ensures Total(seq(k, _ => Starting)) == 2 * k
  {
    if k > 0 {
      var ws: seq<Worker> := seq(k, _ => Starting);
      var rest: seq<Worker> := seq(k - 1, _ => Starting);
      assert ws[1..] == rest;
      TotalStart(k - 1);
    }
  }

  // Steps still to come.
  function Measure(items: Items, p: Pool): int { 4 * (|items| - p.next) + Total(p.workers) }

  lemma StepDescends(items: Items, p: Pool, s: Step)
    requires Inv(items, p) && Enabled(items, p, s)
    ensures 0 <= Measure(items, Next(items, p, s)) <= Measure(items, p) - 1
    ensures Next(items, p, s).workers[s.w] != Dead ==> Measure(items, Next(items, p, s)) == Measure(items, p) - 1
  {
    TotalUpdate(p.workers, s.w, Next(items, p, s).workers[s.w]);
    StepKeepsInv(items, p, s);
    hide LockAgrees;
    assert Next(items, p, s).workers == p.workers[s.w := Next(items, p, s).workers[s.w]];
  }

  // Every run of k workers over n items ends within 4n + 2k steps.
  lemma {:induction false} RunsAreShort(items: Items, k: nat, steps: seq<Step>)
    requires Exec(items, k, steps).Reached?
    ensures |steps| + Measure(items, Exec(items, k, steps).p) <= 4 * |items| + 2 * k
    ensures 0 <= Measure(items, Exec(items, k, steps).p)
  {
    if steps == [] {
      TotalStart(k);
    } else {
      RunsAreShort(items, k, steps[..|steps| - 1]);
      RunKeepsInv(items, k, steps[..|steps| - 1]);
      StepDescends(items, Exec(items, k, steps[..|steps| - 1]).p, steps[|steps| - 1]);
    }
  }

  // ----- Outcomes -----

  ghost predicate NoneDead(p: Pool) { forall w :: 0 <= w < |p.workers| ==> p.workers[w] != Dead }

  ghost predicate AllDone(p: Pool) { forall w :: 0 <= w < |p.workers| ==> p.workers[w] == Done }

  // As long as nobody has died, somebody can go on until everybody is done.
  lemma NoDeadlock(items: Items, p: Pool)
    requires Inv(items, p) && NoneDead(p) && !AllDone(p)
    ensures exists s :: Enabled(items, p, s)
  {
    if p.lock.Some? {
      var w := p.lock.w;
      if p.workers[w].Holding? {
        assert Enabled(items, p, Advance(w));
      } else {
        assert Enabled(items, p, Report(w));
      }
    } else {
      var w :| 0 <= w < |p.workers| && p.workers[w] != Done;
      if p.workers[w].Starting? {
        assert Enabled(items, p, Acquire(w));
      } else if p.workers[w].Computing? {
        assert Enabled(items, p, Compute(w, true));
      } else {
        assert Enabled(items, p, Reacquire(w));
      }
    }
  }

  // When all workers have joined, the lock is free and every item was computed exactly once.
  lemma JoinedMeansAllComputed(items: Items, k: nat, steps: seq<Step>)
    requires k > 0
    ensures var r := Exec(items, k, steps);
      r.Reached? && AllDone(r.p) ==>
        && r.p.lock == None
        && (forall i: nat :: multiset(r.p.computed)[i] == if i < |items| then 1 else 0)
  {
    RunKeepsInv(items, k, steps);
    var r := Exec(items, k, steps);
    if r.Reached? && AllDone(r.p) {
      assert r.p.workers[0] == Done;
      assert forall w: nat, i: nat :: !At(r.p, w, i);
      forall i: nat ensures multiset(r.p.computed)[i] == if i < |items| then 1 else 0 {
        OnceEach(r.p.computed, i);
      }
    }
  }

  lemma {:induction false} OnceEach(s: seq<nat>, i: nat)
    requires forall a, b :: 0 <= a < b < |s| ==> s[a] != s[b]
    ensures multiset(s)[i] == if i in s then 1 else 0
  {
    if s != [] {
      var init := s[..|s| - 1];
      assert s == init + [s[|s| - 1]];
      OnceEach(init, i);
    }
  }

  // The iterator moves only under the lock, and hands out the items in list order, hence in
  // non-increasing target size.
  lemma IteratorUnderLock(items: Items, k: nat, steps: seq<Step>, s: Step)
    requires LargestFirst(items)
    requires Exec(items, k, steps).Reached? && Enabled(items, Exec(items, k, steps).p, s)
    ensures var p := Exec(items, k, steps).p; var q := Next(items, p, s);
      q.next != p.next ==>
        && p.lock == Some(s.w) && q.next == p.next + 1 && q.workers[s.w] == Computing(p.next)
        && forall i :: 0 <= i < p.next ==> items[i] >= items[p.next]
  {
    RunKeepsInv(items, k, steps);
  }

  // ----- The exception -----

  // One worker alone, up to the point where it is about to take item n.
  function Solo(n: nat): seq<Step> {
    if n == 0 then [Acquire(0)]
    else Solo(n - 1) + [Advance(0), Compute(0, true), Reacquire(0), Report(0)]
  }

  function SoloPool(k: nat, n: nat): Pool
    requires k > 0
  {
    Pool(Some(0), n, Start(k).workers[0 := Holding], seq(n, i => i))
  }

  lemma ExecNone(items: Items, k: nat)
    ensures Exec(items, k, []) == Reached(Start(k))
  {
  }

  lemma ExecSnoc(items: Items, k: nat, steps: seq<Step>, s: Step)
    requires var r := Exec(items, k, steps); r.Reached? && Enabled(items, r.p, s)
    ensures Exec(items, k, steps + [s]) == Reached(Next(items, Exec(items, k, steps).p, s))
  {
    assert (steps + [s])[..|steps|] == steps;
  }

  // The pool of a lone worker that is about to report item n.
  function SoloDue(k: nat, n: nat): Pool
    requires k > 0
  {
    Pool(Some(0), n + 1, SoloPool(k, n).workers[0 := Reporting(n, true)], SoloPool(k, n).computed + [n])
  }

  // The three steps from the iterator to the report.
  lemma SoloItem(items: Items, k: nat, n: nat, steps: seq<Step>)
    requires k > 0 && n < |items| && Exec(items, k, steps) == Reached(SoloPool(k, n))
    ensures Exec(items, k, steps + [Advance(0)] + [Compute(0, true)] + [Reacquire(0)]) == Reached(SoloDue(k, n))
  {
    hide Exec;
    var p := SoloPool(k, n);
    ExecSnoc(items, k, steps, Advance(0));
    var p1 := Next(items, p, Advance(0));
    ExecSnoc(items, k, steps + [Advance(0)], Compute(0, true));
    var p2 := Next(items, p1, Compute(0, true));
    ExecSnoc(items, k, steps + [Advance(0)] + [Compute(0, true)], Reacquire(0));
    assert p.workers[0 := Computing(n)][0 := Computed(n, true)][0 := Reporting(n, true)]
        == p.workers[0 := Reporting(n, true)];
  }

  lemma SoloStart(items: Items, k: nat)
    requires k > 0
    ensures Enabled(items, Start(k), Acquire(0)) && Next(items, Start(k), Acquire(0)) == SoloPool(k, 0)
  {
    assert seq(0, i => i) == [];
  }

  lemma SoloReport(items: Items, k: nat, n: nat)
    requires k > 0 && n < |items| && items[n] > 0
    ensures Enabled(items, SoloDue(k, n), Report(0)) && Next(items, SoloDue(k, n), Report(0)) == SoloPool(k, n + 1)
  {
    assert seq(n + 1, i => i) == seq(n, i => i) + [n];
    var ws := SoloPool(k, n).workers;
    assert ws[0 := Reporting(n, true)][0 := Holding] == ws;
  }

  lemma {:induction false} SoloRuns(items: Items, k: nat, n: nat)
    requires k > 0 && n <= |items| && forall i :: 0 <= i < n ==> items[i] > 0
    ensures Exec(items, k, Solo(n)) == Reached(SoloPool(k, n))
  {
    hide Exec, Next, Enabled, SoloPool, SoloDue;
    if n == 0 {
      ExecNone(items, k);
      SoloStart(items, k);
      ExecSnoc(items, k, [], Acquire(0));
      assert [] + [Acquire(0)] == [Acquire(0)];
    } else {
      SoloRuns(items, k, n - 1);
      SoloItem(items, k, n - 1, Solo(n - 1));
      var steps := Solo(n - 1) + [Advance(0)] + [Compute(0, true)] + [Reacquire(0)];
      SoloReport(items, k, n - 1);
      ExecSnoc(items, k, steps, Report(0));
      assert Solo(n) == steps + [Report(0)];
    }
  }

  ghost predicate NeverDies(items: Items, k: nat) {
    forall steps :: var r := Exec(items, k, steps); r.Reached? ==> NoneDead(r.p)
  }

  lemma {:induction false} PositiveSizesNeverDie(items: Items, k: nat, steps: seq<Step>)
    requires forall i :: 0 <= i < |items| ==> items[i] > 0
    ensures var r := Exec(items, k, steps); r.Reached? ==> NoneDead(r.p)
  {
    if steps != [] {
      PositiveSizesNeverDie(items, k, steps[..|steps| - 1]);
    }
  }

  // No run loses a worker to the exception exactly when no target is empty.
  lemma NeverDiesIff(items: Items, k: nat)
    requires k > 0
    ensures NeverDies(items, k) <==> forall i :: 0 <= i < |items| ==> items[i] > 0
  {
    if forall i :: 0 <= i < |items| ==> items[i] > 0 {
      forall steps ensures var r := Exec(items, k, steps); r.Reached? ==> NoneDead(r.p) {
        PositiveSizesNeverDie(items, k, steps);
      }
    } else {
      var z := FirstEmpty(items);
      SoloRuns(items, k, z);
      SoloItem(items, k, z, Solo(z));
      var steps := Solo(z) + [Advance(0)] + [Compute(0, true)] + [Reacquire(0)];
      ExecSnoc(items, k, steps, Report(0));
      var r := Exec(items, k, steps + [Report(0)]);
      assert r.Reached? && r.p.workers[0] == Dead;
    }
  }

  lemma FirstEmpty(items: Items) returns (z: nat)
    requires exists i :: 0 <= i < |items| && items[i] == 0
    ensures z < |items| && items[z] == 0 && forall i :: 0 <= i < z ==> items[i] > 0
  {
    z := 0;
    while items[z] != 0
      invariant z < |items| && forall i :: 0 <= i < z ==> items[i] > 0
      decreases |items| - z
    {
      z := z + 1;
    }
  }

  // Worker w has produced a patch for item i: it computed it with success.
  ghost predicate Produced(items: Items, k: nat, steps: seq<Step>, w: nat, i: nat) {
    exists j :: 0 <= j < |steps| && ProducedAt(items, k, steps, j, w, i)
  }

  ghost predicate ProducedAt(items: Items, k: nat, steps: seq<Step>, j: nat, w: nat, i: nat)
    requires j < |steps|
  {
    var r := Exec(items, k, steps[..j]);
    steps[j] == Compute(w, true) && r.Reached? && At(r.p, w, i)
  }

  lemma ProducedOn(items: Items, k: nat, steps: seq<Step>, s: Step, w: nat, i: nat)
    requires Produced(items, k, steps, w, i)
    ensures Produced(items, k, steps + [s], w, i)
  {
    hide Exec;
    var j :| 0 <= j < |steps| && ProducedAt(items, k, steps, j, w, i);
    assert (steps + [s])[..j] == steps[..j];
    assert ProducedAt(items, k, steps + [s], j, w, i);
  }

  // A patch waiting to be reported was produced, and a dead worker produced one for an empty target.
  ghost predicate Traced(items: Items, k: nat, steps: seq<Step>, p: Pool) {
    && (forall w: nat, i: nat ::
          w < |p.workers| && (p.workers[w] == Computed(i, true) || p.workers[w] == Reporting(i, true)) ==>
            Produced(items, k, steps, w, i))
    && (forall w: nat :: w < |p.workers| && p.workers[w] == Dead ==> DiedOf(items, k, steps, w))
  }

  ghost predicate DiedOf(items: Items, k: nat, steps: seq<Step>, w: nat) {
    exists i: nat :: i < |items| && items[i] == 0 && Produced(items, k, steps, w, i)
  }

  lemma TracedNext(items: Items, k: nat, steps: seq<Step>, p: Pool, s: Step)
    requires Exec(items, k, steps) == Reached(p) && Enabled(items, p, s) && Traced(items, k, steps, p)
    ensures Traced(items, k, steps + [s], Next(items, p, s))
  {
    var q, all := Next(items, p, s), steps + [s];
    forall w: nat, i: nat | w < |q.workers| && (q.workers[w] == Computed(i, true) || q.workers[w] == Reporting(i, true))
      ensures Produced(items, k, all, w, i)
    {
      if s == Compute(w, true) && At(p, w, i) {
        assert all[..|steps|] == steps;
        assert ProducedAt(items, k, all, |steps|, w, i);
      } else {
        assert p.workers[w] == Computed(i, true) || p.workers[w] == Reporting(i, true);
        ProducedOn(items, k, steps, s, w, i);
      }
    }
    forall w: nat | w < |q.workers| && q.workers[w] == Dead ensures DiedOf(items, k, all, w) {
      if p.workers[w] == Dead {
        var i: nat :| i < |items| && items[i] == 0 && Produced(items, k, steps, w, i);
        ProducedOn(items, k, steps, s, w, i);
      } else {
        ProducedOn(items, k, steps, s, w, p.workers[w].item);
      }
    }
  }

  // A worker dies only of a patch it produced for an empty target; a failed patch spares it.
  lemma {:induction false} DeathNeedsPatch(items: Items, k: nat, steps: seq<Step>)
    ensures var r := Exec(items, k, steps); r.Reached? ==> Traced(items, k, steps, r.p)
  {
    hide Traced, Next, Enabled;
    if steps == [] {
      NothingTraced(items, k);
    } else {
      var init, s := steps[..|steps| - 1], steps[|steps| - 1];
      DeathNeedsPatch(items, k, init);
      var r := Exec(items, k, init);
      assert init + [s] == steps;
      if r.Reached? && Enabled(items, r.p, s) {
        TracedNext(items, k, init, r.p, s);
      }
    }
  }

  lemma NothingTraced(items: Items, k: nat)
    ensures Traced(items, k, [], Start(k))
  {
  }

  // And of such a patch it does die, as soon as it reports it.
  lemma EmptyPatchKills(items: Items, p: Pool, w: nat, i: nat)
    requires Inv(items, p) && w < |p.workers| && p.workers[w] == Reporting(i, true) && items[i] == 0
    ensures Enabled(items, p, Report(w)) && Next(items, p, Report(w)).workers[w] == Dead
    ensures forall s :: Enabled(items, p, s) && Next(items, p, s).workers[w] != p.workers[w] ==> s == Report(w)
  {
  }

  // A dead worker keeps the lock, so from then on nothing is handed out any more.
  lemma DeadStopsHandouts(items: Items, p: Pool, s: Step, d: nat)
    requires Inv(items, p) && d < |p.workers| && p.workers[d] == Dead && Enabled(items, p, s)
    ensures var q := Next(items, p, s);
            |q.workers| == |p.workers| && q.workers[d] == Dead && q.next == p.next && q.lock == Some(d)
  {
  }

  // Every worker thread has ended, by finishing or by the exception, so that join returns.
  ghost predicate Joined(p: Pool) {
    forall w :: 0 <= w < |p.workers| ==> p.workers[w] == Done || p.workers[w] == Dead
  }

  // One step after a death ends no thread that had not ended.
  lemma DeadStopsJoins(items: Items, p: Pool, s: Step, d: nat)
    requires Inv(items, p) && d < |p.workers| && p.workers[d] == Dead && Enabled(items, p, s)
    ensures Joined(Next(items, p, s)) <==> Joined(p)
  {
    var q := Next(items, p, s);
    assert HasLock(p.workers[d]) && p.lock == Some(d);
    assert p.workers[s.w].Computing? && q.workers[s.w].Computed?;
  }

  // After a death, over every continuation: the dead worker stays dead, nothing more is handed
  // out, and the threads have all ended if and only if they had all ended at the death. So
  // ComputeDifferences returns only if every other worker was already done.
  lemma {:induction false} DeathIsFinal(items: Items, k: nat, steps: seq<Step>, more: seq<Step>, d: nat)
    requires Exec(items, k, steps).Reached? && Exec(items, k, steps + more).Reached?
    requires d < |Exec(items, k, steps).p.workers| && Exec(items, k, steps).p.workers[d] == Dead
    ensures var p, q := Exec(items, k, steps).p, Exec(items, k, steps + more).p;
      && |q.workers| == |p.workers| && q.workers[d] == Dead && q.next == p.next
      && (Joined(q) <==> Joined(p))
    decreases |more|
  {
    if more == [] {
      assert steps + more == steps;
    } else {
      hide Next, Enabled, Inv, Joined;
      var init, s := more[..|more| - 1], more[|more| - 1];
      assert (steps + more)[..|steps + more| - 1] == steps + init;
      DeathIsFinal(items, k, steps, init, d);
      RunKeepsInv(items, k, steps + init);
      var p := Exec(items, k, steps + init).p;
      DeadStopsHandouts(items, p, s, d);
      DeadStopsJoins(items, p, s, d);
    }
  }

  // In particular, a death while differences are left and there is another worker keeps
  // ComputeDifferences from ever returning.
  lemma DeathBlocksReturn(items: Items, k: nat, steps: seq<Step>, more: seq<Step>, d: nat)
    requires k >= 2 && Exec(items, k, steps).Reached? && Exec(items, k, steps + more).Reached?
    requires d < |Exec(items, k, steps).p.workers| && Exec(items, k, steps).p.workers[d] == Dead
    requires Exec(items, k, steps).p.next < |items|
    ensures !Joined(Exec(items, k, steps + more).p)
  {
    hide Exec;
    RunKeepsInv(items, k, steps);
    DeathIsFinal(items, k, steps, more, d);
    var p, w := Exec(items, k, steps).p, if d == 0 then 1 else 0;
    assert HasLock(p.workers[d]);
    assert p.workers[w] != Done && p.workers[w] != Dead;
  }

  // With no empty target, every run that can go no further has computed everything, exactly
  // once, with the lock free and all workers joined.
  lemma MaximalRunsComplete(items: Items, k: nat, steps: seq<Step>)
    requires k > 0 && forall i :: 0 <= i < |items| ==> items[i] > 0
    requires var r := Exec(items, k, steps); r.Reached? && forall s :: !Enabled(items, r.p, s)
    ensures var p := Exec(items, k, steps).p;
      && AllDone(p) && p.lock == None
      && forall i: nat :: multiset(p.computed)[i] == if i < |items| then 1 else 0
  {
    RunKeepsInv(items, k, steps);
    PositiveSizesNeverDie(items, k, steps);
    JoinedMeansAllComputed(items, k, steps);
    var p := Exec(items, k, steps).p;
    if !AllDone(p) {
      NoDeadlock(items, p);
    }
  }
}
