// Inside a pool conversations start in order and no more of them run than there are workers:
// memory/benchmarks/run.py:4470-4482.
module FleetOrder {
  import opened FleetSchedule

  // Whatever runs or has ended has nothing in front of it that still waits, and the workers suffice for what runs.
  predicate InOrder(p: Pass, width: nat)
  {
    && (forall i, k :: 0 <= i < k < |p.works| && (p.works[k].Running? || p.works[k].Ended?) ==> !p.works[i].Idle?)
    && Busy(p.works) <= width
  }

  predicate PoolsInOrder(g: Group, width: nat) { InOrder(g.addPass, width) && InOrder(g.readPass, width) }

  lemma {:induction false} BusyPut(works: seq<Work>, k: nat, w: Work)
    requires k < |works|
    ensures Busy(works[k := w]) ==
            Busy(works) - (if works[k].Running? then 1 else 0) + if w.Running? then 1 else 0
  {
    var n := |works| - 1;
    if k < n {
      BusyPut(works[..n], k, w);
      assert works[k := w][..n] == works[..n][k := w];
    } else {
      assert works[k := w][..n] == works[..n];
    }
  }

  lemma {:induction false} BusyCancelled(works: seq<Work>)
    ensures Busy(CancelIdle(works)) == Busy(works)
  {
    if works != [] {
      var n := |works| - 1;
      BusyCancelled(works[..n]);
      assert CancelIdle(works)[..n] == CancelIdle(works[..n]);
    }
  }

  lemma {:induction false} BusyNew(convs: seq<nat>)
    ensures Busy(NewPass(convs).works) == 0
  {
    if convs != [] {
      var n := |convs| - 1;
      BusyNew(convs[..n]);
      assert NewPass(convs).works[..n] == NewPass(convs[..n]).works;
    }
  }

  lemma StepInOrder(s: Fleet, stages: Stages, step: Step)
    requires Enabled(s, stages, step) && PoolsInOrder(s.groups[step.g], stages.width)
    ensures step.g in Next(s, stages, step).groups && PoolsInOrder(Next(s, stages, step).groups[step.g], stages.width)
  {
    var g := s.groups[step.g];
    hide Busy, CancelIdle, NewPass;
    match step
    case Start(_, reading, k) => StartInOrder(PassOf(g, reading), k, stages.width);
    case End(_, reading, k, outcome) => EndInOrder(PassOf(g, reading), k, outcome, stages.width);
    case Collect(_, reading) => CancelInOrder(PassOf(g, reading), stages.width);
    case _ =>
      NewInOrder(g.convs, stages.width);
      NewInOrder(g.kept, stages.width);
      hide InOrder, Passing;
  }

  lemma StartInOrder(p: Pass, k: nat, width: nat)
    requires InOrder(p, width) && NextUp(p, k, width)
    ensures InOrder(p.(works := p.works[k := Running]), width)
  {
    BusyPut(p.works, k, Running);
    hide Busy;
  }

  lemma EndInOrder(p: Pass, k: nat, outcome: Outcome, width: nat)
    requires InOrder(p, width) && k < |p.works| && p.works[k].Running?
    ensures InOrder(p.(works := p.works[k := Ended(outcome)]), width)
  {
    BusyPut(p.works, k, Ended(outcome));
    hide Busy;
  }

  lemma CancelInOrder(p: Pass, width: nat)
    requires InOrder(p, width)
    ensures forall seen :: InOrder(Pass(p.convs, CancelIdle(p.works), seen), width) && InOrder(p.(seen := seen), width)
  {
    BusyCancelled(p.works);
    hide Busy;
  }

  lemma NewInOrder(convs: seq<nat>, width: nat)
    ensures InOrder(NewPass(convs), width)
  {
    BusyNew(convs);
    hide Busy;
  }

  // In every interleaving every pool is in order.
  lemma {:induction false} AlwaysInOrder(convs: seq<nat>, n: nat, stages: Stages, steps: seq<Step>, j: nat)
    requires n > 0 && j in After(convs, n, stages, steps).groups
    ensures PoolsInOrder(After(convs, n, stages, steps).groups[j], stages.width)
  {
    hide Next, PoolsInOrder, Share;
    if steps == [] {
      FirstInOrder(Share(convs, j, n), stages.width);
    } else {
      var before, step := After(convs, n, stages, steps[..|steps| - 1]), steps[|steps| - 1];
      SameKeys(before, stages, step);
      AlwaysInOrder(convs, n, stages, steps[..|steps| - 1], j);
      if Enabled(before, stages, step) {
        StepLocal(before, stages, step);
        if j == step.g {
          StepInOrder(before, stages, step);
        }
      }
    }
  }

  lemma SameKeys(s: Fleet, stages: Stages, step: Step)
    ensures Next(s, stages, step).groups.Keys == s.groups.Keys
    ensures !Enabled(s, stages, step) ==> Next(s, stages, step) == s
  {
    if Enabled(s, stages, step) {
      StepLocal(s, stages, step);
    }
    hide Enabled;
  }

  lemma FirstInOrder(convs: seq<nat>, width: nat)
    ensures PoolsInOrder(FirstGroup(convs), width)
  {
  }
}
