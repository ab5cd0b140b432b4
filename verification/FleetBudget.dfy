// How the groups of a fleet run end, and what a spent account does: memory/benchmarks/run.py:4480-4561.
module FleetBudget {
  import opened FleetSchedule

  predicate Terminal(p: Phase) { p.Finished? || p.Aborted? || p.Broken? }

  // No group waits for something that cannot come: until it is at an end, one of its steps can be taken.
  lemma NeverStuck(g: Group, j: nat, stages: Stages, s: Fleet) returns (step: Step)
    requires stages.width > 0
    requires j in s.groups && s.groups[j] == g && GroupOk(g, j, stages, s.budgetStopped, s.results)
             && !Terminal(g.phase)
    ensures step.g == j && Enabled(s, stages, step)
  {
    hide Clean, Get, AnyExhausted, Busy;
    match g.phase
    case Waiting => step := Begin(j);
    case Adding => step := PassStep(g, j, stages, s, false);
    case Added => step := Quiesce(j);
    case Quiescing => step := EndQuiesce(j, true);
    case Filtering => step := Filter(j);
    case Gate => step := Enter(j);
    case Reading => step := PassStep(g, j, stages, s, true);
    case Unwinding =>
      if Over(g.addPass) && Over(g.readPass) {
        step := Unwind(j);
      } else {
        var reading := Over(g.addPass);
        var p := PassOf(g, reading);
        var k :| 0 <= k < |p.works| && !p.works[k].Ended? && !p.works[k].Cancelled?;
        step := PoolStep(g, j, stages, s, reading, k);
      }
  }

  // A pool with a future that is not over can start or end one.
  lemma PoolStep(g: Group, j: nat, stages: Stages, s: Fleet, reading: bool, k: nat) returns (step: Step)
    requires stages.width > 0 && j in s.groups && s.groups[j] == g && (InPass(g, reading) || g.phase.Unwinding?)
    requires k < |PassOf(g, reading).works|
             && (PassOf(g, reading).works[k].Idle? || PassOf(g, reading).works[k].Running?)
    ensures step.g == j && Enabled(s, stages, step)
  {
    var p := PassOf(g, reading);
    if r :| 0 <= r < |p.works| && p.works[r].Running? {
      step := End(j, reading, r, Good);
    } else {
      NoneBusy(p.works);
      var first := FirstIdle(p.works, k);
      step := Start(j, reading, first);
    }
  }

  lemma {:induction false} NoneBusy(works: seq<Work>)
    requires forall i :: 0 <= i < |works| ==> !works[i].Running?
    ensures Busy(works) == 0
  {
    if works != [] {
      NoneBusy(works[..|works| - 1]);
    }
  }

  lemma {:induction false} FirstIdle(works: seq<Work>, k: nat) returns (first: nat)
    requires k < |works| && works[k].Idle?
    ensures first < |works| && works[first].Idle? && forall i :: 0 <= i < first ==> !works[i].Idle?
  {
    first := k;
    if i :| 0 <= i < k && works[i].Idle? {
      first := FirstIdle(works, i);
    }
  }

  lemma PassStep(g: Group, j: nat, stages: Stages, s: Fleet, reading: bool) returns (step: Step)
    requires stages.width > 0
    requires j in s.groups && s.groups[j] == g && PassOk(PassOf(g, reading)) && InPass(g, reading)
    ensures step.g == j && Enabled(s, stages, step)
  {
    var p := PassOf(g, reading);
    if p.seen == |p.works| {
      step := Close(j, reading);
    } else if p.works[p.seen].Idle? || p.works[p.seen].Running? {
      step := PoolStep(g, j, stages, s, reading, p.seen);
    } else {
      step := Collect(j, reading);
    }
  }

  predicate HasCancelled(g: Group) { AnyCancelled(g.addPass) || AnyCancelled(g.readPass) }

  // A group with a cancelled future has not left that pass, and can only leave it by the error.
  lemma CancelledPhase(g: Group, j: nat, stages: Stages, s: Fleet)
    requires GroupOk(g, j, stages, s.budgetStopped, s.results)
    ensures HasCancelled(g) ==> g.phase.Adding? || g.phase.Reading? || g.phase.Unwinding? || g.phase.Aborted?
    ensures g.phase.Unwinding? || g.phase.Aborted? ==> HasCancelled(g)
  {
    hide Clean, Get, AnyExhausted;
  }

  lemma StepCancelled(s: Fleet, stages: Stages, step: Step, j: nat)
    requires j in s.groups && GroupOk(s.groups[j], j, stages, s.budgetStopped, s.results) && HasCancelled(s.groups[j])
    ensures j in Next(s, stages, step).groups && HasCancelled(Next(s, stages, step).groups[j])
  {
    CancelledPhase(s.groups[j], j, stages, s);
    if Enabled(s, stages, step) && step.g == j {
      hide Next, GroupOk, HasCancelled;
      match step
      case Start(_, _, _) => WorkCancelled(s, stages, step, Running);
      case End(_, _, _, outcome) => WorkCancelled(s, stages, step, Ended(outcome));
      case Collect(_, _) => CollectCancelled(s, stages, step);
      case _ => ClosedPasses(s, stages, step);
    } else {
      hide GroupOk, HasCancelled, Enabled;
    }
  }

  lemma WorkCancelled(s: Fleet, stages: Stages, step: Step, w: Work)
    requires Enabled(s, stages, step) && (step.Start? || step.End?)
    requires w == if step.Start? then Running else Ended(step.outcome)
    requires GroupOk(s.groups[step.g], step.g, stages, s.budgetStopped, s.results) && HasCancelled(s.groups[step.g])
    ensures step.g in Next(s, stages, step).groups && HasCancelled(Next(s, stages, step).groups[step.g])
  {
    WorkKeeps(PassOf(s.groups[step.g], step.reading), step.k, w);
    hide GroupOk, AnyCancelled;
  }

  lemma CollectCancelled(s: Fleet, stages: Stages, step: Step)
    requires Enabled(s, stages, step) && step.Collect?
    requires GroupOk(s.groups[step.g], step.g, stages, s.budgetStopped, s.results) && HasCancelled(s.groups[step.g])
    ensures step.g in Next(s, stages, step).groups && HasCancelled(Next(s, stages, step).groups[step.g])
  {
    var p := PassOf(s.groups[step.g], step.reading);
    if p.works[p.seen].Ended? {
      CollectKeeps(p, if p.works[p.seen] == Ended(Exhausted) then CancelIdle(p.works) else p.works);
    }
    hide GroupOk, AnyCancelled, CancelIdle;
  }

  lemma ClosedPasses(s: Fleet, stages: Stages, step: Step)
    requires Enabled(s, stages, step) && !step.Start? && !step.End? && !step.Collect?
    requires GroupOk(s.groups[step.g], step.g, stages, s.budgetStopped, s.results) && HasCancelled(s.groups[step.g])
    ensures step.g in Next(s, stages, step).groups && HasCancelled(Next(s, stages, step).groups[step.g])
  {
    CancelledPhase(s.groups[step.g], step.g, stages, s);
    hide GroupOk, AnyCancelled, NewPass, Passing;
  }

  lemma {:induction false} CancelledForEver(convs: seq<nat>, n: nat, stages: Stages, steps: seq<Step>, k: nat, j: nat)
    requires n > 0 && k <= |steps|
    requires j in After(convs, n, stages, steps[..k]).groups
             && HasCancelled(After(convs, n, stages, steps[..k]).groups[j])
    ensures j in After(convs, n, stages, steps).groups && HasCancelled(After(convs, n, stages, steps).groups[j])
    decreases |steps|
  {
    hide Next, HasCancelled, GroupOk;
    if k == |steps| {
      assert steps[..k] == steps;
    } else {
      var before := steps[..|steps| - 1];
      assert before[..k] == steps[..k];
      CancelledForEver(convs, n, stages, before, k, j);
      AlwaysInv(convs, n, stages, before);
      StepCancelled(After(convs, n, stages, before), stages, steps[|steps| - 1], j);
    }
  }

  // Collecting a future that found the account spent while another of its pass is still queued.
  ghost predicate SpendsQueued(s: Fleet, stages: Stages, step: Step, j: nat)
  {
    step.Collect? && step.g == j && Enabled(s, stages, step) &&
    var p := PassOf(s.groups[j], step.reading);
    p.works[p.seen] == Ended(Exhausted) && exists i :: 0 <= i < |p.works| && p.works[i].Idle?
  }

  lemma QueuedIsCancelled(s: Fleet, stages: Stages, step: Step, j: nat)
    requires SpendsQueued(s, stages, step, j)
    ensures j in Next(s, stages, step).groups && HasCancelled(Next(s, stages, step).groups[j])
  {
    var p := PassOf(s.groups[j], step.reading);
    var i :| 0 <= i < |p.works| && p.works[i].Idle?;
    assert CancelIdle(p.works)[i].Cancelled?;
    assert Next(s, stages, step).groups[j] ==
           WithPass(s.groups[j], step.reading, Pass(p.convs, CancelIdle(p.works), p.seen + 1));
    assert AnyCancelled(Pass(p.convs, CancelIdle(p.works), p.seen + 1));
  }

  // Nothing else cancels a future.
  lemma OnlySpending(s: Fleet, stages: Stages, step: Step, j: nat)
    requires j in s.groups && GroupOk(s.groups[j], j, stages, s.budgetStopped, s.results)
    requires !HasCancelled(s.groups[j]) && j in Next(s, stages, step).groups
             && HasCancelled(Next(s, stages, step).groups[j])
    ensures SpendsQueued(s, stages, step, j)
  {
    if Enabled(s, stages, step) && step.g == j {
      hide GroupOk, SpendsQueued, Next;
      match step
      case Start(_, _, _) => WorkCancelsNone(s, stages, step, Running);
      case End(_, _, _, outcome) => WorkCancelsNone(s, stages, step, Ended(outcome));
      case Collect(_, _) => CollectCancels(s, stages, step);
      case _ => MoveCancelsNone(s, stages, step);
    } else {
      hide GroupOk, Enabled;
    }
  }

  lemma WorkCancelsNone(s: Fleet, stages: Stages, step: Step, w: Work)
    requires Enabled(s, stages, step) && (step.Start? || step.End?)
    requires w == if step.Start? then Running else Ended(step.outcome)
    requires GroupOk(s.groups[step.g], step.g, stages, s.budgetStopped, s.results) && !HasCancelled(s.groups[step.g])
    ensures step.g in Next(s, stages, step).groups && !HasCancelled(Next(s, stages, step).groups[step.g])
  {
    WorkKeeps(PassOf(s.groups[step.g], step.reading), step.k, w);
    hide GroupOk, AnyCancelled;
  }

  lemma CollectCancels(s: Fleet, stages: Stages, step: Step)
    requires Enabled(s, stages, step) && step.Collect?
    requires GroupOk(s.groups[step.g], step.g, stages, s.budgetStopped, s.results) && !HasCancelled(s.groups[step.g])
    ensures step.g in Next(s, stages, step).groups
    ensures HasCancelled(Next(s, stages, step).groups[step.g]) ==> SpendsQueued(s, stages, step, step.g)
  {
    hide GroupOk;
    var g, t := s.groups[step.g], Next(s, stages, step);
    var p := PassOf(g, step.reading);
    assert p.works[p.seen].Cancelled? ==> AnyCancelled(p);
    if p.works[p.seen] == Ended(Exhausted) {
      var q := Pass(p.convs, CancelIdle(p.works), p.seen + 1);
      assert t.groups[step.g] == WithPass(g, step.reading, q);
      if k :| 0 <= k < |q.works| && q.works[k].Cancelled? {
        assert p.works[k].Idle?;
      }
    }
  }

  lemma MoveCancelsNone(s: Fleet, stages: Stages, step: Step)
    requires Enabled(s, stages, step) && !step.Start? && !step.End? && !step.Collect?
    requires GroupOk(s.groups[step.g], step.g, stages, s.budgetStopped, s.results) && !HasCancelled(s.groups[step.g])
    ensures step.g in Next(s, stages, step).groups && !HasCancelled(Next(s, stages, step).groups[step.g])
  {
    NewPassOk(s.groups[step.g].convs);
    NewPassOk(s.groups[step.g].kept);
    hide GroupOk, AnyCancelled, NewPass, Passing;
  }

  // Some step of the run did that in group j.
  ghost predicate EverSpent(convs: seq<nat>, n: nat, stages: Stages, steps: seq<Step>, j: nat)
    requires n > 0
  {
    steps != [] &&
    var before := steps[..|steps| - 1];
    EverSpent(convs, n, stages, before, j)
    || SpendsQueued(After(convs, n, stages, before), stages, steps[|steps| - 1], j)
  }

  // A group has a cancelled future exactly when that happened.
  lemma {:induction false} CancelledExact(convs: seq<nat>, n: nat, stages: Stages, steps: seq<Step>, j: nat)
    requires n > 0 && j in After(convs, n, stages, steps).groups
    ensures HasCancelled(After(convs, n, stages, steps).groups[j]) <==> EverSpent(convs, n, stages, steps, j)
  {
    hide Next, HasCancelled, GroupOk, SpendsQueued, Initial;
    if steps == [] {
      NothingCancelled(convs, n, j);
    } else {
      var before, step := steps[..|steps| - 1], steps[|steps| - 1];
      var s := After(convs, n, stages, before);
      AlwaysInv(convs, n, stages, before);
      SameGroups(s, stages, step);
      CancelledExact(convs, n, stages, before, j);
      if HasCancelled(s.groups[j]) {
        StepCancelled(s, stages, step, j);
      } else if SpendsQueued(s, stages, step, j) {
        QueuedIsCancelled(s, stages, step, j);
      } else if HasCancelled(Next(s, stages, step).groups[j]) {
        OnlySpending(s, stages, step, j);
      }
    }
  }

  lemma SameGroups(s: Fleet, stages: Stages, step: Step)
    ensures Next(s, stages, step).groups.Keys == s.groups.Keys
  {
    if Enabled(s, stages, step) {
      StepLocal(s, stages, step);
    }
  }

  lemma NothingCancelled(convs: seq<nat>, n: nat, j: nat)
    requires n > 0 && j in Initial(convs, n).groups
    ensures !HasCancelled(Initial(convs, n).groups[j])
  {
  }

  // The quiesce of group j failed in some step of the run.
  ghost predicate EverUnquiesced(convs: seq<nat>, n: nat, stages: Stages, steps: seq<Step>, j: nat)
    requires n > 0
  {
    steps != [] &&
    var before, step := steps[..|steps| - 1], steps[|steps| - 1];
    EverUnquiesced(convs, n, stages, before, j)
    || (step == EndQuiesce(j, false) && Enabled(After(convs, n, stages, before), stages, step))
  }

  lemma {:induction false} BrokenExact(convs: seq<nat>, n: nat, stages: Stages, steps: seq<Step>, j: nat)
    requires n > 0 && j in After(convs, n, stages, steps).groups
    ensures After(convs, n, stages, steps).groups[j].phase.Broken? <==> EverUnquiesced(convs, n, stages, steps, j)
  {
    hide Next, Initial, Enabled;
    if steps == [] {
      NothingBroken(convs, n, j);
    } else {
      var before, step := steps[..|steps| - 1], steps[|steps| - 1];
      SameGroups(After(convs, n, stages, before), stages, step);
      BrokenExact(convs, n, stages, before, j);
      StepBroken(After(convs, n, stages, before), stages, step, j);
    }
  }

  lemma NothingBroken(convs: seq<nat>, n: nat, j: nat)
    requires n > 0 && j in Initial(convs, n).groups
    ensures !Initial(convs, n).groups[j].phase.Broken?
  {
  }

  lemma StepBroken(s: Fleet, stages: Stages, step: Step, j: nat)
    requires j in s.groups
    ensures j in Next(s, stages, step).groups
    ensures Next(s, stages, step).groups[j].phase.Broken? <==>
            s.groups[j].phase.Broken? || (step == EndQuiesce(j, false) && Enabled(s, stages, step))
  {
    hide NewPass, Passing, CancelIdle, Busy;
  }

  // When every group has come to an end, all of them have finished, and the exit that reports a spent account can be
  // reached, exactly when no group spent it with a conversation queued and no quiesce failed.
  lemma FinishExact(convs: seq<nat>, n: nat, stages: Stages, steps: seq<Step>)
    requires n > 0 && forall j :: j in After(convs, n, stages, steps).groups ==>
             Terminal(After(convs, n, stages, steps).groups[j].phase)
    ensures AllFinished(After(convs, n, stages, steps)) <==>
            forall j :: j in After(convs, n, stages, steps).groups ==>
              !EverSpent(convs, n, stages, steps, j) && !EverUnquiesced(convs, n, stages, steps, j)
  {
    hide EverSpent, EverUnquiesced;
    var s := After(convs, n, stages, steps);
    hide After;
    forall j | j in s.groups
      ensures s.groups[j].phase.Finished?
              <==> !EverSpent(convs, n, stages, steps, j) && !EverUnquiesced(convs, n, stages, steps, j)
    {
      AbortedExact(convs, n, stages, steps, j);
      BrokenExact(convs, n, stages, steps, j);
    }
  }

  // A group that has come to an end was left by CancelledError exactly when it collected the spent account with
  // another conversation of the pass queued.
  lemma AbortedExact(convs: seq<nat>, n: nat, stages: Stages, steps: seq<Step>, j: nat)
    requires n > 0 && j in After(convs, n, stages, steps).groups
             && Terminal(After(convs, n, stages, steps).groups[j].phase)
    ensures After(convs, n, stages, steps).groups[j].phase.Aborted? <==> EverSpent(convs, n, stages, steps, j)
  {
    hide GroupOk, HasCancelled, EverSpent;
    var s := After(convs, n, stages, steps);
    AlwaysInv(convs, n, stages, steps);
    CancelledPhase(s.groups[j], j, stages, s);
    CancelledExact(convs, n, stages, steps, j);
  }

  // If a conversation finds the account spent while another of its pass is still queued, then in every continuation
  // that group never finishes.
  lemma ExhaustedWhileQueued(convs: seq<nat>, n: nat, stages: Stages, steps: seq<Step>, k: nat)
    requires n > 0 && k < |steps| && SpendsQueued(After(convs, n, stages, steps[..k]), stages, steps[k], steps[k].g)
    ensures var s := After(convs, n, stages, steps);
            && steps[k].g in s.groups && !AllFinished(s)
            && (Terminal(s.groups[steps[k].g].phase) ==> s.groups[steps[k].g].phase.Aborted?)
  {
    var j := steps[k].g;
    QueuedIsCancelled(After(convs, n, stages, steps[..k]), stages, steps[k], j);
    assert steps[..k + 1][..k] == steps[..k];
    hide Next, HasCancelled, GroupOk, SpendsQueued;
    CancelledForEver(convs, n, stages, steps, k + 1, j);
    AlwaysInv(convs, n, stages, steps);
    var s := After(convs, n, stages, steps);
    CancelledPhase(s.groups[j], j, stages, s);
  }

  // ---- When it can happen ----

  // Every worker takes a first future as soon as there is one.
  predicate SeatedPass(p: Pass, width: nat)
  {
    forall i :: 0 <= i < width && i < |p.works| ==> !p.works[i].Idle?
  }

  // No future is collected before all workers have taken their first one. Later pick-ups may lag.
  ghost predicate Seated(convs: seq<nat>, n: nat, stages: Stages, steps: seq<Step>)
    requires n > 0
  {
    steps != [] ==>
      var before, step := steps[..|steps| - 1], steps[|steps| - 1];
      var s := After(convs, n, stages, before);
      && Seated(convs, n, stages, before)
      && (step.Collect? && Enabled(s, stages, step) ==>
          SeatedPass(PassOf(s.groups[step.g], step.reading), stages.width))
  }

  // With as many workers as the server has conversations, no group is ever aborted.
  lemma {:induction false} WideEnough(convs: seq<nat>, n: nat, stages: Stages, steps: seq<Step>, j: nat)
    requires n > 0 && Seated(convs, n, stages, steps) && |Share(convs, j, n)| <= stages.width
    ensures !EverSpent(convs, n, stages, steps, j)
  {
    hide Next, GroupOk, SeatedPass, Initial, Share, GroupInv;
    if steps != [] {
      var before, step := steps[..|steps| - 1], steps[|steps| - 1];
      var s := After(convs, n, stages, before);
      WideEnough(convs, n, stages, before, j);
      AlwaysInv(convs, n, stages, before);
      if SpendsQueued(s, stages, step, j) {
        InvGroup(s, j, convs, n, stages);
        NoneQueued(s.groups[j], j, stages, s, step.reading);
      }
    }
  }

  lemma InvGroup(s: Fleet, j: nat, convs: seq<nat>, n: nat, stages: Stages)
    requires n > 0 && Inv(s, convs, n, stages) && j in s.groups
    ensures s.groups[j].convs == Share(convs, j, n) && GroupOk(s.groups[j], j, stages, s.budgetStopped, s.results)
  {
    hide GroupOk;
    assert GroupInv(s, j, convs, n, stages);
  }

  lemma NoneQueued(g: Group, j: nat, stages: Stages, s: Fleet, reading: bool)
    requires GroupOk(g, j, stages, s.budgetStopped, s.results) && |g.convs| <= stages.width
    requires SeatedPass(PassOf(g, reading), stages.width)
    ensures forall i :: 0 <= i < |PassOf(g, reading).works| ==> !PassOf(g, reading).works[i].Idle?
  {
    hide Clean, Get, AnyCancelled, AnyExhausted;
  }

  // One more step of a seated run.
  lemma OneStep(convs: seq<nat>, n: nat, stages: Stages, steps: seq<Step>, step: Step)
    requires n > 0 && Seated(convs, n, stages, steps)
    requires var s := After(convs, n, stages, steps);
             step.Collect? && Enabled(s, stages, step) ==>
             SeatedPass(PassOf(s.groups[step.g], step.reading), stages.width)
    ensures After(convs, n, stages, steps + [step]) == Next(After(convs, n, stages, steps), stages, step)
    ensures Seated(convs, n, stages, steps + [step])
  {
    hide Next, Enabled, SeatedPass;
    assert (steps + [step])[..|steps|] == steps;
  }

  // The run so far has taken group j this far, and the account lasts.
  ghost predicate Stands(convs: seq<nat>, n: nat, stages: Stages, steps: seq<Step>, j: nat, g: Group)
    requires n > 0
  {
    var s := After(convs, n, stages, steps);
    Seated(convs, n, stages, steps) && j in s.groups && s.groups[j] == g && !s.budgetStopped
  }

  // The first e conversations of a pass are done, the others queued.
  function SomeDone(m: nat, e: nat): seq<Work> { seq(m, i => if i < e then Ended(Good) else Idle) }

  // The first r conversations of a pass are being worked on.
  function SomeRunning(m: nat, r: nat): seq<Work> { seq(m, i => if i < r then Running else Idle) }

  lemma {:induction false} BusyRunning(m: nat, r: nat)
    requires r <= m
    ensures Busy(SomeRunning(m, r)) == r
    decreases m
  {
    var works := SomeRunning(m, r);
    if m > 0 {
      if r == m {
        assert works[..m - 1] == SomeRunning(m - 1, m - 1);
        BusyRunning(m - 1, m - 1);
      } else {
        assert works[..m - 1] == SomeRunning(m - 1, r);
        BusyRunning(m - 1, r);
      }
    }
  }

  function AddingGroup(share: seq<nat>, e: nat, seen: nat): Group
  {
    FirstGroup(share).(phase := Adding, addPass := Pass(share, SomeDone(|share|, e), seen))
  }

  lemma {:induction false} AddThem(convs: seq<nat>, n: nat, stages: Stages, start: seq<Step>, j: nat, e: nat)
    returns (steps: seq<Step>)
    requires n > 0 && stages.width > 0 && e <= |Share(convs, j, n)|
    requires Stands(convs, n, stages, start, j, AddingGroup(Share(convs, j, n), 0, 0))
    ensures Stands(convs, n, stages, steps, j, AddingGroup(Share(convs, j, n), e, 0))
  {
    hide Share, After, Seated, Next;
    steps := start;
    if e > 0 {
      steps := AddThem(convs, n, stages, start, j, e - 1);
      AddOne(convs, n, stages, steps, j, e - 1);
      steps := steps + [Start(j, false, e - 1)] + [End(j, false, e - 1, Good)];
    }
  }

  lemma AddOne(convs: seq<nat>, n: nat, stages: Stages, steps: seq<Step>, j: nat, e: nat)
    requires n > 0 && stages.width > 0 && e < |Share(convs, j, n)|
    requires Stands(convs, n, stages, steps, j, AddingGroup(Share(convs, j, n), e, 0))
    ensures Stands(convs, n, stages, steps + [Start(j, false, e)] + [End(j, false, e, Good)], j,
                   AddingGroup(Share(convs, j, n), e + 1, 0))
  {
    hide Share, After, Seated;
    var share := Share(convs, j, n);
    var works := SomeDone(|share|, e);
    NoneBusy(works);
    OneStep(convs, n, stages, steps, Start(j, false, e));
    OneStep(convs, n, stages, steps + [Start(j, false, e)], End(j, false, e, Good));
    hide Busy;
    assert works[e := Running][e := Ended(Good)] == SomeDone(|share|, e + 1);
  }

  lemma {:induction false} CollectThem(convs: seq<nat>, n: nat, stages: Stages, start: seq<Step>, j: nat, seen: nat)
    returns (steps: seq<Step>)
    requires n > 0 && seen <= |Share(convs, j, n)|
    requires var share := Share(convs, j, n);
             Stands(convs, n, stages, start, j, AddingGroup(share, |share|, 0))
    ensures var share := Share(convs, j, n);
            Stands(convs, n, stages, steps, j, AddingGroup(share, |share|, seen))
  {
    hide Share, After, Seated, Next;
    steps := start;
    if seen > 0 {
      steps := CollectThem(convs, n, stages, start, j, seen - 1);
      CollectOne(convs, n, stages, steps, j, seen - 1);
      steps := steps + [Collect(j, false)];
    }
  }

  lemma CollectOne(convs: seq<nat>, n: nat, stages: Stages, steps: seq<Step>, j: nat, seen: nat)
    requires n > 0 && seen < |Share(convs, j, n)|
    requires var share := Share(convs, j, n);
             Stands(convs, n, stages, steps, j, AddingGroup(share, |share|, seen))
    ensures var share := Share(convs, j, n);
            Stands(convs, n, stages, steps + [Collect(j, false)], j, AddingGroup(share, |share|, seen + 1))
  {
    hide Share, After, Seated;
    OneStep(convs, n, stages, steps, Collect(j, false));
  }

  // Group j at the gate with all its conversations to read.
  function GateGroup(share: seq<nat>, added: bool): Group
  {
    var g := FirstGroup(share).(phase := Gate, kept := share);
    if added then g.(addPass := Pass(share, SomeDone(|share|, |share|), |share|), quiesced := true) else g
  }

  lemma ToGate(convs: seq<nat>, n: nat, stages: Stages, j: nat) returns (steps: seq<Step>)
    requires n > 0 && stages.width > 0 && Share(convs, j, n) != []
    ensures Stands(convs, n, stages, steps, j, GateGroup(Share(convs, j, n), stages.add))
  {
    var share := Share(convs, j, n);
    StartsWaiting(convs, n, stages, j);
    Opens(convs, n, stages, j);
    hide Share, After, Seated, Next, Initial;
    steps := [] + [Begin(j)];
    if stages.add {
      steps := AddThem(convs, n, stages, steps, j, |share|);
      steps := CollectThem(convs, n, stages, steps, j, |share|);
      ClosesQuiesced(convs, n, stages, steps, j);
      steps := steps + [Close(j, false)] + [Quiesce(j)] + [EndQuiesce(j, true)];
      Filtered(convs, n, stages, steps, j);
      steps := steps + [Filter(j)];
    }
  }

  lemma StartsWaiting(convs: seq<nat>, n: nat, stages: Stages, j: nat)
    requires n > 0 && Share(convs, j, n) != []
    ensures Stands(convs, n, stages, [], j, FirstGroup(Share(convs, j, n)))
  {
    var c := Share(convs, j, n)[0];
    assert c in Share(convs, j, n);
  }

  lemma Opens(convs: seq<nat>, n: nat, stages: Stages, j: nat)
    requires n > 0 && Stands(convs, n, stages, [], j, FirstGroup(Share(convs, j, n)))
    ensures var share := Share(convs, j, n);
            Stands(convs, n, stages, [] + [Begin(j)], j,
                   if stages.add then AddingGroup(share, 0, 0) else GateGroup(share, false))
  {
    hide Share, After, Seated;
    OneStep(convs, n, stages, [], Begin(j));
    var share := Share(convs, j, n);
    assert NewPass(share).works == SomeDone(|share|, 0);
  }

  lemma ClosesQuiesced(convs: seq<nat>, n: nat, stages: Stages, steps: seq<Step>, j: nat)
    requires n > 0
    requires var share := Share(convs, j, n);
             Stands(convs, n, stages, steps, j, AddingGroup(share, |share|, |share|))
    ensures var share := Share(convs, j, n);
            Stands(convs, n, stages, steps + [Close(j, false)] + [Quiesce(j)] + [EndQuiesce(j, true)], j,
                   AddingGroup(share, |share|, |share|).(phase := Filtering, quiesced := true))
  {
    hide Share, After, Seated;
    OneStep(convs, n, stages, steps, Close(j, false));
    OneStep(convs, n, stages, steps + [Close(j, false)], Quiesce(j));
    OneStep(convs, n, stages, steps + [Close(j, false)] + [Quiesce(j)], EndQuiesce(j, true));
  }

  lemma Filtered(convs: seq<nat>, n: nat, stages: Stages, steps: seq<Step>, j: nat)
    requires n > 0
    requires var share := Share(convs, j, n);
             Stands(convs, n, stages, steps, j,
                    AddingGroup(share, |share|, |share|).(phase := Filtering, quiesced := true))
    ensures Stands(convs, n, stages, steps + [Filter(j)], j, GateGroup(Share(convs, j, n), true))
  {
    var s, share := After(convs, n, stages, steps), Share(convs, j, n);
    AlwaysInv(convs, n, stages, steps);
    hide Share, After, Seated, GroupInv;
    InvGroup(s, j, convs, n, stages);
    AllPass(s.groups[j], j, stages, s);
    OneStep(convs, n, stages, steps, Filter(j));
    PassingAll(share, s.results);
  }

  lemma AllPass(g: Group, j: nat, stages: Stages, s: Fleet)
    requires GroupOk(g, j, stages, s.budgetStopped, s.results)
    requires g.addPass == Pass(g.convs, SomeDone(|g.convs|, |g.convs|), |g.convs|) && g.readPass == NoPass()
    ensures forall c :: c in g.convs ==> Get(s.results, c)
  {
    hide Get, AnyCancelled, AnyExhausted;
  }

  lemma {:induction false} PassingAll(convs: seq<nat>, results: map<nat, bool>)
    requires forall c :: c in convs ==> Get(results, c)
    ensures Passing(convs, results) == convs
  {
    if convs != [] {
      var n := |convs| - 1;
      PassingAll(convs[..n], results);
      assert convs == convs[..n] + [convs[n]];
    }
  }

  function ReadingGroup(share: seq<nat>, added: bool, works: seq<Work>): Group
  {
    GateGroup(share, added).(phase := Reading, readPass := Pass(share, works, 0))
  }

  lemma {:induction false} ReadThem(convs: seq<nat>, n: nat, stages: Stages, start: seq<Step>, j: nat, r: nat)
    returns (steps: seq<Step>)
    requires n > 0 && r <= stages.width && r <= |Share(convs, j, n)|
    requires var share := Share(convs, j, n);
             Stands(convs, n, stages, start, j, ReadingGroup(share, stages.add, SomeRunning(|share|, 0)))
    ensures var share := Share(convs, j, n);
            Stands(convs, n, stages, steps, j, ReadingGroup(share, stages.add, SomeRunning(|share|, r)))
  {
    hide Share, After, Seated, Next;
    steps := start;
    if r > 0 {
      steps := ReadThem(convs, n, stages, start, j, r - 1);
      ReadOne(convs, n, stages, steps, j, r - 1);
      steps := steps + [Start(j, true, r - 1)];
    }
  }

  lemma ReadOne(convs: seq<nat>, n: nat, stages: Stages, steps: seq<Step>, j: nat, r: nat)
    requires n > 0 && r < stages.width && r < |Share(convs, j, n)|
    requires var share := Share(convs, j, n);
             Stands(convs, n, stages, steps, j, ReadingGroup(share, stages.add, SomeRunning(|share|, r)))
    ensures var share := Share(convs, j, n);
            Stands(convs, n, stages, steps + [Start(j, true, r)], j,
                   ReadingGroup(share, stages.add, SomeRunning(|share|, r + 1)))
  {
    hide Share, After, Seated;
    var share := Share(convs, j, n);
    BusyRunning(|share|, r);
    OneStep(convs, n, stages, steps, Start(j, true, r));
    hide Busy;
    assert SomeRunning(|share|, r)[r := Running] == SomeRunning(|share|, r + 1);
  }

  // With fewer workers than conversations, the first one read may find the account spent while another is queued.
  lemma TooNarrow(convs: seq<nat>, n: nat, stages: Stages, j: nat) returns (steps: seq<Step>)
    requires n > 0 && stages.read && 0 < stages.width < |Share(convs, j, n)|
    ensures Seated(convs, n, stages, steps) && EverSpent(convs, n, stages, steps, j)
  {
    var share := Share(convs, j, n);
    hide Share, After, Seated, Next, SpendsQueued;
    steps := ToGate(convs, n, stages, j);
    EntersReading(convs, n, stages, steps, j);
    steps := ReadThem(convs, n, stages, steps + [Enter(j)], j, stages.width);
    SpendsFirst(convs, n, stages, steps, j);
    var before := steps + [End(j, true, 0, Exhausted)];
    steps := before + [Collect(j, true)];
    assert steps[..|steps| - 1] == before;
  }

  lemma EntersReading(convs: seq<nat>, n: nat, stages: Stages, steps: seq<Step>, j: nat)
    requires n > 0 && stages.read && Share(convs, j, n) != []
    requires Stands(convs, n, stages, steps, j, GateGroup(Share(convs, j, n), stages.add))
    ensures var share := Share(convs, j, n);
            Stands(convs, n, stages, steps + [Enter(j)], j, ReadingGroup(share, stages.add, SomeRunning(|share|, 0)))
  {
    hide Share, After, Seated;
    OneStep(convs, n, stages, steps, Enter(j));
    var share := Share(convs, j, n);
    assert NewPass(share).works == SomeRunning(|share|, 0);
  }

  lemma SpendsFirst(convs: seq<nat>, n: nat, stages: Stages, steps: seq<Step>, j: nat)
    requires n > 0 && 0 < stages.width < |Share(convs, j, n)|
    requires var share := Share(convs, j, n);
             Stands(convs, n, stages, steps, j, ReadingGroup(share, stages.add, SomeRunning(|share|, stages.width)))
    ensures var before := steps + [End(j, true, 0, Exhausted)];
            Seated(convs, n, stages, before + [Collect(j, true)]) &&
            SpendsQueued(After(convs, n, stages, before), stages, Collect(j, true), j)
  {
    hide Share, After, Seated, Busy;
    var before := steps + [End(j, true, 0, Exhausted)];
    OneStep(convs, n, stages, steps, End(j, true, 0, Exhausted));
    var s := After(convs, n, stages, before);
    assert s.groups[j].readPass.works[stages.width].Idle?;
    OneStep(convs, n, stages, before, Collect(j, true));
  }

  // So a group can be aborted exactly when its server has more conversations than its pool has workers and anything
  // is read at all.
  lemma AbortPossibleExactly(convs: seq<nat>, n: nat, stages: Stages, j: nat)
    requires n > 0 && stages.width > 0
    ensures (exists steps :: Seated(convs, n, stages, steps) && EverSpent(convs, n, stages, steps, j)) <==>
            stages.read && |Share(convs, j, n)| > stages.width
  {
    hide Share, Seated, EverSpent;
    if stages.read && |Share(convs, j, n)| > stages.width {
      var steps := TooNarrow(convs, n, stages, j);
    }
    if steps :| Seated(convs, n, stages, steps) && EverSpent(convs, n, stages, steps, j) {
      if |Share(convs, j, n)| <= stages.width {
        WideEnough(convs, n, stages, steps, j);
      }
      if !stages.read {
        NothingSpent(convs, n, stages, steps, j);
      }
    }
  }

  predicate NoneExhausted(works: seq<Work>) { forall k :: 0 <= k < |works| ==> works[k] != Ended(Exhausted) }

  lemma StepAddsLast(s: Fleet, stages: Stages, step: Step, j: nat)
    requires j in s.groups && NoneExhausted(s.groups[j].addPass.works)
    ensures j in Next(s, stages, step).groups && NoneExhausted(Next(s, stages, step).groups[j].addPass.works)
  {
    hide Busy, Passing;
  }

  lemma {:induction false} AddsLast(convs: seq<nat>, n: nat, stages: Stages, steps: seq<Step>, j: nat)
    requires n > 0 && j in After(convs, n, stages, steps).groups
    ensures NoneExhausted(After(convs, n, stages, steps).groups[j].addPass.works)
  {
    hide Next, NoneExhausted, Initial;
    if steps == [] {
      NothingEnded(convs, n, j);
    } else {
      var before, step := steps[..|steps| - 1], steps[|steps| - 1];
      SameGroups(After(convs, n, stages, before), stages, step);
      AddsLast(convs, n, stages, before, j);
      StepAddsLast(After(convs, n, stages, before), stages, step, j);
    }
  }

  lemma NothingEnded(convs: seq<nat>, n: nat, j: nat)
    requires n > 0 && j in Initial(convs, n).groups
    ensures NoneExhausted(Initial(convs, n).groups[j].addPass.works)
  {
  }

  // Only a read pass can spend the account.
  lemma {:induction false} NothingSpent(convs: seq<nat>, n: nat, stages: Stages, steps: seq<Step>, j: nat)
    requires n > 0 && !stages.read
    ensures !EverSpent(convs, n, stages, steps, j)
  {
    hide Next, Initial, GroupInv;
    if steps != [] {
      var before, step := steps[..|steps| - 1], steps[|steps| - 1];
      var s := After(convs, n, stages, before);
      NothingSpent(convs, n, stages, before, j);
      AlwaysInv(convs, n, stages, before);
      if j in s.groups {
        InvGroup(s, j, convs, n, stages);
        AddsLast(convs, n, stages, before, j);
        NothingToSpend(s, stages, step, j);
      }
    }
  }

  lemma NothingToSpend(s: Fleet, stages: Stages, step: Step, j: nat)
    requires j in s.groups && GroupOk(s.groups[j], j, stages, s.budgetStopped, s.results) && !stages.read
    requires NoneExhausted(s.groups[j].addPass.works)
    ensures !SpendsQueued(s, stages, step, j)
  {
    hide Clean, Get, AnyCancelled, AnyExhausted;
  }

  // ---- A group that comes too late ----

  // Its server is not frozen and has not been asked to, and nothing of it was or is being read.
  ghost predicate LeftAlone(g: Group)
  {
    && !g.quiesced && !g.phase.Quiescing? && !g.phase.Reading? && !g.phase.Broken?
    && g.readPass.convs == [] && g.readPass.works == []
  }

  // A group whose server was not yet asked to quiesce when the account was spent leaves the server alone and reads
  // nothing, in every continuation.
  lemma {:induction false} SpentBeforeQuiesce(convs: seq<nat>, n: nat, stages: Stages, steps: seq<Step>, k: nat, j: nat)
    requires n > 0 && k <= |steps|
    requires var s := After(convs, n, stages, steps[..k]); s.budgetStopped && j in s.groups && LeftAlone(s.groups[j])
    ensures var s := After(convs, n, stages, steps); s.budgetStopped && j in s.groups && LeftAlone(s.groups[j])
    decreases |steps|
  {
    hide Next, LeftAlone;
    if k == |steps| {
      assert steps[..k] == steps;
    } else {
      var before, step := steps[..|steps| - 1], steps[|steps| - 1];
      assert before[..k] == steps[..k];
      SpentBeforeQuiesce(convs, n, stages, before, k, j);
      StepLeavesAlone(After(convs, n, stages, before), stages, step, j);
    }
  }

  lemma StepLeavesAlone(s: Fleet, stages: Stages, step: Step, j: nat)
    requires s.budgetStopped && j in s.groups && LeftAlone(s.groups[j])
    ensures var t := Next(s, stages, step); t.budgetStopped && j in t.groups && LeftAlone(t.groups[j])
  {
    if Enabled(s, stages, step) {
      StepLocal(s, stages, step);
      if step.g == j {
        OwnStepLeavesAlone(s, stages, step);
      }
    }
    hide Enabled, LeftAlone;
  }

  lemma OwnStepLeavesAlone(s: Fleet, stages: Stages, step: Step)
    requires Enabled(s, stages, step) && s.budgetStopped && LeftAlone(s.groups[step.g])
    ensures step.g in Next(s, stages, step).groups && LeftAlone(Next(s, stages, step).groups[step.g])
  {
    hide Passing, NewPass, CancelIdle, Get, Busy;
  }
}
