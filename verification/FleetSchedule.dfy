// The ingest, quiesce, read schedule over a fleet of servers: memory/benchmarks/run.py:4464-4553. The groups
// run in parallel threads; every step below is one of theirs, and a run is any interleaving of steps.
module FleetSchedule {

  // How the stages of one conversation end: well, with a recorded failure, or with the account spent.
  datatype Outcome = Good | Failed | Exhausted

  // A future of a thread pool.
  datatype Work = Idle | Running | Ended(outcome: Outcome) | Cancelled

  // One pass over conversations: a future for each, and how many of them the loop has collected, in order.
  datatype Pass = Pass(convs: seq<nat>, works: seq<Work>, seen: nat)

  datatype Phase =
    | Waiting
    | Adding
    | Added
    | Quiescing
    | Filtering
    | Gate
    | Reading
    | Finished
    | Unwinding   // a cancelled future was collected; the pool still waits for what runs
    | Aborted     // left by CancelledError
    | Broken      // left by the quiesce error

  // The conversations of one server, its ADD pass, whether it was quiesced, what is left to read, and its read pass.
  datatype Group = Group(convs: seq<nat>, phase: Phase, addPass: Pass, quiesced: bool, kept: seq<nat>, readPass: Pass)

  // Shared by all groups: the groups by server, the budget flag and the results.
  datatype Fleet = Fleet(groups: map<nat, Group>, budgetStopped: bool, results: map<nat, bool>)

  // Whether "add" is among the stages, whether any other stage is, and the number of workers of a pool.
  datatype Stages = Stages(add: bool, read: bool, width: nat)

  function Get(results: map<nat, bool>, conv: nat): bool { if conv in results then results[conv] else true }

  // ---- Groups ----

  function Share(convs: seq<nat>, server: nat, n: nat): (r: seq<nat>)
    requires n > 0
    ensures forall c :: c in r <==> c in convs && c % n == server
  {
    if convs == [] then []
    else
      var k := |convs| - 1;
      assert convs == convs[..k] + [convs[k]];
      Share(convs[..k], server, n) + if convs[k] % n == server then [convs[k]] else []
  }

  // The share has, in order and each as often as it is there, exactly the conversations of the server.
  lemma {:induction false} SharePicks(convs: seq<nat>, server: nat, n: nat) returns (at: seq<nat>)
    requires n > 0
    ensures |at| == |Share(convs, server, n)|
    ensures forall k :: 0 <= k < |at| ==> at[k] < |convs| && Share(convs, server, n)[k] == convs[at[k]]
    ensures forall j, k :: 0 <= j < k < |at| ==> at[j] < at[k]
    ensures forall i :: 0 <= i < |convs| ==> (i in at <==> convs[i] % n == server)
  {
    at := [];
    if convs != [] {
      var k := |convs| - 1;
      var before := SharePicks(convs[..k], server, n);
      at := before + if convs[k] % n == server then [k] else [];
      assert k !in before;
    }
  }

  method GroupByServer(convs: seq<nat>, n: nat) returns (groups: map<nat, seq<nat>>)
    requires n > 0
    ensures forall j :: j in groups <==> exists c :: c in convs && c % n == j
    ensures forall j :: j in groups ==> groups[j] == Share(convs, j, n)
  {
    groups := map[];
    for k := 0 to |convs|
      invariant forall j :: j in groups <==> Share(convs[..k], j, n) != []
      invariant forall j :: j in groups ==> groups[j] == Share(convs[..k], j, n)
    {
      var c := convs[k];
      assert convs[..k + 1][..k] == convs[..k];
      groups := groups[c % n := (if c % n in groups then groups[c % n] else []) + [c]];
    }
    assert convs[..|convs|] == convs;
    forall j
      ensures j in groups <==> exists c :: c in convs && c % n == j
    {
      if j in groups {
        assert Share(convs, j, n)[0] in Share(convs, j, n);
      }
    }
  }

  function NewPass(convs: seq<nat>): Pass { Pass(convs, seq(|convs|, _ => Idle), 0) }

  function NoPass(): Pass { Pass([], [], 0) }

  function FirstGroup(convs: seq<nat>): Group { Group(convs, Waiting, NoPass(), false, [], NoPass()) }

  ghost function Initial(convs: seq<nat>, n: nat): Fleet
    requires n > 0
  {
    Fleet(map j | j in (set c | c in convs :: c % n) :: FirstGroup(Share(convs, j, n)), false, map[])
  }

  // ---- Steps ----

  datatype Step =
    | Begin(g: nat)
    | Start(g: nat, reading: bool, k: nat)
    | End(g: nat, reading: bool, k: nat, outcome: Outcome)
    | Collect(g: nat, reading: bool)
    | Close(g: nat, reading: bool)
    | Quiesce(g: nat)
    | EndQuiesce(g: nat, ok: bool)
    | Filter(g: nat)
    | Enter(g: nat)
    | Unwind(g: nat)

  function PassOf(g: Group, reading: bool): Pass { if reading then g.readPass else g.addPass }

  predicate InPass(g: Group, reading: bool) { g.phase == if reading then Reading else Adding }

  predicate Over(p: Pass) { forall k :: 0 <= k < |p.works| ==> p.works[k].Ended? || p.works[k].Cancelled? }

  function Busy(works: seq<Work>): nat
  {
    if works == [] then 0 else Busy(works[..|works| - 1]) + if works[|works| - 1].Running? then 1 else 0
  }

  // A worker is free and future k is the first in the queue.
  predicate NextUp(p: Pass, k: nat, width: nat)
  {
    k < |p.works| && p.works[k].Idle? && (forall i :: 0 <= i < k ==> !p.works[i].Idle?) && Busy(p.works) < width
  }

  ghost predicate Enabled(s: Fleet, stages: Stages, step: Step)
  {
    step.g in s.groups &&
    var g := s.groups[step.g];
    match step
    case Begin(_) => g.phase.Waiting?
    case Start(_, reading, k) =>
      (InPass(g, reading) || g.phase.Unwinding?) && NextUp(PassOf(g, reading), k, stages.width)
    case End(_, reading, k, outcome) =>
      && (InPass(g, reading) || g.phase.Unwinding?)
      && k < |PassOf(g, reading).works| && PassOf(g, reading).works[k].Running?
      && (outcome.Exhausted? ==> reading)  // only the answer and judge stages ask the paid models
    case Collect(_, reading) =>
      var p := PassOf(g, reading);
      InPass(g, reading) && p.seen < |p.works| && p.seen < |p.convs|
      && (p.works[p.seen].Ended? || p.works[p.seen].Cancelled?)
    case Close(_, reading) => InPass(g, reading) && PassOf(g, reading).seen == |PassOf(g, reading).works|
    case Quiesce(_) => g.phase.Added?
    case EndQuiesce(_, _) => g.phase.Quiescing?
    case Filter(_) => g.phase.Filtering?
    case Enter(_) => g.phase.Gate?
    case Unwind(_) => g.phase.Unwinding? && Over(g.addPass) && Over(g.readPass)
  }

  function WithPass(g: Group, reading: bool, p: Pass): Group { if reading then g.(readPass := p) else g.(addPass := p) }

  function WithWork(g: Group, reading: bool, k: nat, w: Work): Group
    requires k < |PassOf(g, reading).works|
  {
    var p := PassOf(g, reading);
    WithPass(g, reading, p.(works := p.works[k := w]))
  }

  // cancel() stops what has not started.
  function CancelIdle(works: seq<Work>): seq<Work>
  {
    seq(|works|, k requires 0 <= k < |works| => if works[k].Idle? then Cancelled else works[k])
  }

  function Passing(convs: seq<nat>, results: map<nat, bool>): (r: seq<nat>)
    ensures |r| <= |convs|
  {
    if convs == [] then []
    else
      var k := |convs| - 1;
      Passing(convs[..k], results) + if Get(results, convs[k]) then [convs[k]] else []
  }

  lemma {:induction false} PassingMembers(convs: seq<nat>, results: map<nat, bool>)
    ensures forall c :: c in Passing(convs, results) <==> c in convs && Get(results, c)
  {
    if convs != [] {
      var k := |convs| - 1;
      PassingMembers(convs[..k], results);
      assert convs == convs[..k] + [convs[k]];
    }
  }

  // What is left to read stays in order: the first conversation first, if it may be read, and then the rest.
  lemma {:induction false} PassingFirst(c: nat, convs: seq<nat>, results: map<nat, bool>)
    ensures Passing([c] + convs, results) ==
            (if c in results && !results[c] then [] else [c]) + Passing(convs, results)
  {
    hide *;
    if convs == [] {
      PassingOne(c, results);
      assert [c] + convs == [c];
    } else {
      var k := |convs| - 1;
      PassingFirst(c, convs[..k], results);
      PassingLast([c] + convs, [c] + convs[..k], convs[k], results);
      PassingLast(convs, convs[..k], convs[k], results);
      var last := if Get(results, convs[k]) then [convs[k]] else [];
      Regroup(if c in results && !results[c] then [] else [c], Passing(convs[..k], results), last);
    }
  }

  lemma Regroup(a: seq<nat>, b: seq<nat>, c: seq<nat>)
    ensures (a + b) + c == a + (b + c)
  {
  }

  lemma PassingOne(c: nat, results: map<nat, bool>)
    ensures Passing([c], results) == (if c in results && !results[c] then [] else [c]) + Passing([], results)
  {
    assert [c][..0] == [];
  }

  lemma PassingLast(convs: seq<nat>, before: seq<nat>, c: nat, results: map<nat, bool>)
    requires convs == before + [c]
    ensures Passing(convs, results) == Passing(before, results) + if Get(results, c) then [c] else []
  {
    assert convs[..|convs| - 1] == before;
  }

  function Put(s: Fleet, j: nat, g: Group): Fleet { s.(groups := s.groups[j := g]) }

  // One turn of the loop over the futures.
  function Collected(s: Fleet, j: nat, reading: bool): Fleet
    requires j in s.groups
    requires var p := PassOf(s.groups[j], reading);
             p.seen < |p.works| && p.seen < |p.convs| && (p.works[p.seen].Ended? || p.works[p.seen].Cancelled?)
  {
    var g := s.groups[j];
    var p := PassOf(g, reading);
    var c := p.convs[p.seen];
    match p.works[p.seen]
    case Ended(Exhausted) =>
      Fleet(s.groups[j := WithPass(g, reading, Pass(p.convs, CancelIdle(p.works), p.seen + 1))], true,
            s.results[c := false])
    case Ended(outcome) =>
      var results := s.results[c := outcome.Good? && Get(s.results, c)];
      Put(s, j, WithPass(g, reading, p.(seen := p.seen + 1))).(results := results)
    case _ => Put(s, j, g.(phase := Unwinding))
  }

  ghost function Next(s: Fleet, stages: Stages, step: Step): Fleet
  {
    if !Enabled(s, stages, step) then s
    else
      var g := s.groups[step.g];
      match step
      case Begin(j) =>
        Put(s, j, if stages.add then g.(phase := Adding, addPass := NewPass(g.convs))
                  else g.(phase := Gate, kept := g.convs))
      case Start(j, reading, k) => Put(s, j, WithWork(g, reading, k, Running))
      case End(j, reading, k, outcome) => Put(s, j, WithWork(g, reading, k, Ended(outcome)))
      case Collect(j, reading) => Collected(s, j, reading)
      case Close(j, reading) => Put(s, j, g.(phase := if reading then Finished else Added))
      case Quiesce(j) => Put(s, j, g.(phase := if s.budgetStopped then Filtering else Quiescing))
      case EndQuiesce(j, ok) => Put(s, j, if ok then g.(phase := Filtering, quiesced := true) else g.(phase := Broken))
      case Filter(j) => Put(s, j, g.(phase := Gate, kept := Passing(g.convs, s.results)))
      case Enter(j) =>
        Put(s, j, if stages.read && g.kept != [] && !s.budgetStopped
                  then g.(phase := Reading, readPass := NewPass(g.kept))
                  else g.(phase := Finished))
      case Unwind(j) => Put(s, j, g.(phase := Aborted))
  }

  ghost function After(convs: seq<nat>, n: nat, stages: Stages, steps: seq<Step>): Fleet
    requires n > 0
  {
    if steps == [] then Initial(convs, n)
    else Next(After(convs, n, stages, steps[..|steps| - 1]), stages, steps[|steps| - 1])
  }

  // ---- What every step keeps ----

  // Every future of a conversation that the loop has collected ended well.
  predicate Clean(p: Pass, c: nat)
  {
    forall k :: 0 <= k < p.seen && k < |p.works| && k < |p.convs| && p.convs[k] == c ==> p.works[k] == Ended(Good)
  }

  predicate PassOk(p: Pass)
  {
    && |p.works| == |p.convs| && p.seen <= |p.works|
    && (forall k :: 0 <= k < p.seen ==> p.works[k].Ended?)
  }

  predicate Collectable(p: Pass) { p.seen == |p.works| }

  predicate AnyCancelled(p: Pass) { exists k :: 0 <= k < |p.works| && p.works[k].Cancelled? }

  predicate AnyExhausted(p: Pass) { exists k :: 0 <= k < p.seen && k < |p.works| && p.works[k] == Ended(Exhausted) }

  ghost predicate GroupOk(g: Group, j: nat, stages: Stages, budgetStopped: bool, results: map<nat, bool>)
  {
    && PassOk(g.addPass) && PassOk(g.readPass)
    && g.addPass.convs == (if g.phase.Waiting? || !stages.add then [] else g.convs)
    && (g.readPass.convs == g.kept || g.readPass.convs == [])
    && (g.readPass.convs == [] || g.phase.Reading? || g.phase.Finished? || g.phase.Unwinding? || g.phase.Aborted?)
    // a pass is left only when everything in it is collected
    && (g.phase.Adding? || g.phase.Unwinding? || g.phase.Aborted? || Collectable(g.addPass))
    && (g.phase.Reading? || g.phase.Unwinding? || g.phase.Aborted? || Collectable(g.readPass))
    && (g.readPass.convs != [] ==> stages.read && Collectable(g.addPass) && (stages.add ==> g.quiesced))
    // behind the quiesce check the server is frozen or the budget is gone for good
    && (stages.add && (g.phase.Filtering? || g.phase.Gate?) ==> g.quiesced || budgetStopped)
    && (g.phase.Adding? || g.phase.Added? || g.phase.Quiescing? || g.phase.Filtering? ==> stages.add)
    && (g.phase.Waiting? || g.phase.Adding? || g.phase.Added? || g.phase.Quiescing? ==> g.kept == [])
    && (g.phase.Filtering? || g.phase.Broken? ==> g.kept == [])
    && (g.phase.Reading? ==> g.readPass.convs == g.kept)
    && (g.phase.Finished? ==> budgetStopped || !stages.read || g.readPass.convs == g.kept)
    // what is left to read are the conversations whose ingest went well
    && |g.kept| <= |g.convs| && (forall c :: c in g.kept ==> c in g.convs && Clean(g.addPass, c))
    && (g.phase.Gate? || g.phase.Reading? || g.phase.Finished? ==>
        forall c :: c in g.convs && Clean(g.addPass, c) ==> c in g.kept)
    // the results say exactly whether everything collected went well
    && (forall c :: c in g.convs ==> (Get(results, c) <==> Clean(g.addPass, c) && Clean(g.readPass, c)))
    // futures are cancelled, and groups aborted for it, only for an exhausted budget
    && (AnyCancelled(g.addPass) || AnyCancelled(g.readPass) || AnyExhausted(g.addPass) || AnyExhausted(g.readPass) ==>
        budgetStopped)
    && (g.phase.Unwinding? || g.phase.Aborted? ==> AnyCancelled(g.addPass) || AnyCancelled(g.readPass))
  }

  ghost predicate ServersUsed(servers: set<nat>, convs: seq<nat>, n: nat)
    requires n > 0
  {
    forall j :: j in servers <==> exists c :: c in convs && c % n == j
  }

  ghost predicate GroupInv(s: Fleet, j: nat, convs: seq<nat>, n: nat, stages: Stages)
    requires n > 0 && j in s.groups
  {
    s.groups[j].convs == Share(convs, j, n) && GroupOk(s.groups[j], j, stages, s.budgetStopped, s.results)
  }

  ghost predicate Inv(s: Fleet, convs: seq<nat>, n: nat, stages: Stages)
    requires n > 0
  {
    && ServersUsed(s.groups.Keys, convs, n)
    && (forall j :: j in s.groups ==> GroupInv(s, j, convs, n, stages))
  }

  // A step touches one group, its conversations' results and the flag, which is only ever set.
  lemma StepLocal(s: Fleet, stages: Stages, step: Step)
    requires Enabled(s, stages, step)
    ensures var t := Next(s, stages, step);
            && t.groups.Keys == s.groups.Keys
            && (s.budgetStopped ==> t.budgetStopped)
            && (forall j :: j in s.groups && j != step.g ==> t.groups[j] == s.groups[j])
            && t.groups[step.g].convs == s.groups[step.g].convs
  {
    hide Passing, NewPass, CancelIdle, Get;
  }

  lemma StepResults(s: Fleet, stages: Stages, step: Step)
    requires Enabled(s, stages, step)
    ensures step.Collect? || Next(s, stages, step).results == s.results
    ensures step.Collect? ==>
              var p := PassOf(s.groups[step.g], step.reading);
              forall c :: c != p.convs[p.seen] ==> Get(Next(s, stages, step).results, c) == Get(s.results, c)
  {
    hide Passing, NewPass, CancelIdle;
  }

  lemma CollectedHere(g: Group, j: nat, stages: Stages, budgetStopped: bool, results: map<nat, bool>, reading: bool)
    requires GroupOk(g, j, stages, budgetStopped, results) && PassOf(g, reading).seen < |PassOf(g, reading).works|
    ensures PassOf(g, reading).seen < |PassOf(g, reading).convs|
            && PassOf(g, reading).convs[PassOf(g, reading).seen] in g.convs
  {
    hide Clean, AnyCancelled, AnyExhausted, Get, Collectable;
    var p := PassOf(g, reading);
    assert p.convs[p.seen] in p.convs;
  }

  // The results of one group's conversations are no other group's business.
  lemma OthersUntouched(s: Fleet, convs: seq<nat>, n: nat, stages: Stages, step: Step, j: nat, c: nat)
    requires n > 0 && Inv(s, convs, n, stages) && Enabled(s, stages, step) && j in s.groups && j != step.g
             && c in s.groups[j].convs
    ensures Get(Next(s, stages, step).results, c) == Get(s.results, c)
  {
    StepResults(s, stages, step);
    hide Next, Get, GroupOk;
    assert c % n == j;
    if step.Collect? {
      CollectedHere(s.groups[step.g], step.g, stages, s.budgetStopped, s.results, step.reading);
    }
  }

  lemma OtherGroupOk(g: Group, j: nat, stages: Stages, before: Fleet, after: Fleet)
    requires GroupOk(g, j, stages, before.budgetStopped, before.results)
    requires forall c :: c in g.convs ==> Get(after.results, c) == Get(before.results, c)
    requires before.budgetStopped ==> after.budgetStopped
    ensures GroupOk(g, j, stages, after.budgetStopped, after.results)
  {
    hide Clean, PassOk, AnyCancelled, AnyExhausted, Get, Collectable;
  }

  // Starting or ending a future changes nothing the loop has collected.
  lemma WorkKeeps(p: Pass, k: nat, w: Work)
    requires PassOk(p) && k < |p.works| && !p.works[k].Ended? && !p.works[k].Cancelled? && !w.Cancelled?
    ensures var q := p.(works := p.works[k := w]);
            && PassOk(q) && (forall c :: Clean(q, c) == Clean(p, c))
            && AnyCancelled(q) == AnyCancelled(p) && AnyExhausted(q) == AnyExhausted(p)
            && Collectable(q) == Collectable(p)
  {
    var q := p.(works := p.works[k := w]);
    assert k >= p.seen;
    assert forall i :: 0 <= i < |p.works| && i != k ==> q.works[i] == p.works[i];
    if AnyCancelled(p) {
      var i :| 0 <= i < |p.works| && p.works[i].Cancelled?;
      assert q.works[i].Cancelled?;
    }
    if AnyExhausted(p) {
      var i :| 0 <= i < p.seen && i < |p.works| && p.works[i] == Ended(Exhausted);
      assert q.works[i] == Ended(Exhausted);
    }
  }

  // Collecting a future that ended.
  lemma CollectKeeps(p: Pass, works: seq<Work>)
    requires PassOk(p) && p.seen < |p.works| && p.works[p.seen].Ended?
    requires works == if p.works[p.seen] == Ended(Exhausted) then CancelIdle(p.works) else p.works
    ensures var q := Pass(p.convs, works, p.seen + 1);
            && PassOk(q)
            && (forall c :: Clean(q, c) <==> Clean(p, c) && (c == p.convs[p.seen] ==> p.works[p.seen] == Ended(Good)))
            && (AnyCancelled(q) ==> AnyCancelled(p) || p.works[p.seen] == Ended(Exhausted))
            && (AnyCancelled(p) ==> AnyCancelled(q))
            && (AnyExhausted(q) ==> AnyExhausted(p) || p.works[p.seen] == Ended(Exhausted))
  {
    var q := Pass(p.convs, works, p.seen + 1);
    assert forall i :: 0 <= i <= p.seen ==> works[i] == p.works[i];
    forall c
      ensures Clean(q, c) <==> Clean(p, c) && (c == p.convs[p.seen] ==> p.works[p.seen] == Ended(Good))
    {
    }
    if AnyCancelled(p) {
      var i :| 0 <= i < |p.works| && p.works[i].Cancelled?;
      assert works[i].Cancelled?;
    }
  }

  lemma NewPassOk(convs: seq<nat>)
    ensures var p := NewPass(convs);
            PassOk(p) && (forall c :: Clean(p, c)) && !AnyCancelled(p) && !AnyExhausted(p)
            && (Collectable(p) <==> convs == [])
  {
  }

  lemma EmptyClean(p: Pass)
    ensures p.convs == [] ==> forall c :: Clean(p, c)
  {
  }

  lemma StepGroupOk(s: Fleet, stages: Stages, step: Step)
    requires Enabled(s, stages, step) && GroupOk(s.groups[step.g], step.g, stages, s.budgetStopped, s.results)
    ensures var t := Next(s, stages, step);
            step.g in t.groups && GroupOk(t.groups[step.g], step.g, stages, t.budgetStopped, t.results)
  {
    hide GroupOk, Next;
    match step
    case Start(_, _, _) => WorkOk(s, stages, step, Running);
    case End(_, _, _, outcome) => WorkOk(s, stages, step, Ended(outcome));
    case Collect(_, _) => CollectOk(s, stages, step);
    case _ => QuietOk(s, stages, step);
  }

  lemma WorkOk(s: Fleet, stages: Stages, step: Step, w: Work)
    requires Enabled(s, stages, step) && (step.Start? || step.End?)
    requires w == if step.Start? then Running else Ended(step.outcome)
    requires GroupOk(s.groups[step.g], step.g, stages, s.budgetStopped, s.results)
    ensures var t := Next(s, stages, step);
            step.g in t.groups && GroupOk(t.groups[step.g], step.g, stages, t.budgetStopped, t.results)
  {
    var g := s.groups[step.g];
    WorkKeeps(PassOf(g, step.reading), step.k, w);
    hide Clean, PassOk, AnyCancelled, AnyExhausted, Get, Collectable;
  }

  lemma CollectOk(s: Fleet, stages: Stages, step: Step)
    requires Enabled(s, stages, step) && step.Collect?
    requires GroupOk(s.groups[step.g], step.g, stages, s.budgetStopped, s.results)
    ensures var t := Next(s, stages, step);
            step.g in t.groups && GroupOk(t.groups[step.g], step.g, stages, t.budgetStopped, t.results)
  {
    var g := s.groups[step.g];
    var p := PassOf(g, step.reading);
    if p.works[p.seen].Ended? {
      var q := Pass(p.convs, if p.works[p.seen] == Ended(Exhausted) then CancelIdle(p.works) else p.works, p.seen + 1);
      CollectKeeps(p, q.works);
      CollectedIs(s, stages, step, q);
      hide *;
      GrownOk(g, step.g, stages, s, Next(s, stages, step), step.reading, q);
    } else {
      assert AnyCancelled(p);
      hide Clean, PassOk, AnyExhausted, Collectable;
    }
  }

  // What collecting an ended future does to the group, the flag and the results.
  lemma CollectedIs(s: Fleet, stages: Stages, step: Step, q: Pass)
    requires Enabled(s, stages, step) && step.Collect?
    requires var p := PassOf(s.groups[step.g], step.reading);
             p.works[p.seen].Ended? &&
             q == Pass(p.convs, if p.works[p.seen] == Ended(Exhausted) then CancelIdle(p.works) else p.works,
                       p.seen + 1)
    ensures var g, t := s.groups[step.g], Next(s, stages, step);
            var p := PassOf(g, step.reading);
            && InPass(g, step.reading) && p.seen < |p.works| && p.seen < |p.convs|
            && step.g in t.groups && t.groups[step.g] == WithPass(g, step.reading, q)
            && (t.budgetStopped <==> s.budgetStopped || p.works[p.seen] == Ended(Exhausted))
            && (forall c ::
                Get(t.results, c) <==>
                Get(s.results, c) && (c == p.convs[p.seen] ==> p.works[p.seen] == Ended(Good)))
  {
    hide CancelIdle;
  }

  lemma GrownOk(g: Group, j: nat, stages: Stages, s: Fleet, t: Fleet, reading: bool, q: Pass)
    requires GroupOk(g, j, stages, s.budgetStopped, s.results) && InPass(g, reading)
    requires var p := PassOf(g, reading);
             && p.seen < |p.works| && p.seen < |p.convs| && q.convs == p.convs && PassOk(q)
             && (forall c :: Clean(q, c) <==> Clean(p, c) && (c == p.convs[p.seen] ==> p.works[p.seen] == Ended(Good)))
             && (AnyCancelled(q) ==> AnyCancelled(p) || p.works[p.seen] == Ended(Exhausted))
             && (AnyExhausted(q) ==> AnyExhausted(p) || p.works[p.seen] == Ended(Exhausted))
             && (t.budgetStopped <==> s.budgetStopped || p.works[p.seen] == Ended(Exhausted))
             && (forall c ::
                 Get(t.results, c) <==>
                 Get(s.results, c) && (c == p.convs[p.seen] ==> p.works[p.seen] == Ended(Good)))
    ensures GroupOk(WithPass(g, reading, q), j, stages, t.budgetStopped, t.results)
  {
    hide Clean, PassOk, AnyCancelled, AnyExhausted, Get;
  }

  lemma QuietOk(s: Fleet, stages: Stages, step: Step)
    requires Enabled(s, stages, step) && !step.Start? && !step.End? && !step.Collect?
    requires GroupOk(s.groups[step.g], step.g, stages, s.budgetStopped, s.results)
    ensures var t := Next(s, stages, step);
            step.g in t.groups && GroupOk(t.groups[step.g], step.g, stages, t.budgetStopped, t.results)
  {
    hide GroupOk, Next;
    if step.Begin? || step.Enter? {
      OpenOk(s, stages, step);
    } else if step.Filter? {
      FilterOk(s, stages, step);
    } else {
      MoveOk(s, stages, step);
    }
  }

  lemma OpenOk(s: Fleet, stages: Stages, step: Step)
    requires Enabled(s, stages, step) && (step.Begin? || step.Enter?)
    requires GroupOk(s.groups[step.g], step.g, stages, s.budgetStopped, s.results)
    ensures var t := Next(s, stages, step);
            step.g in t.groups && GroupOk(t.groups[step.g], step.g, stages, t.budgetStopped, t.results)
  {
    var g := s.groups[step.g];
    EmptyClean(g.addPass);
    EmptyClean(g.readPass);
    NewPassOk(g.convs);
    NewPassOk(g.kept);
    hide Clean, PassOk, AnyCancelled, AnyExhausted, Get, Collectable, Passing;
  }

  lemma FilterOk(s: Fleet, stages: Stages, step: Step)
    requires Enabled(s, stages, step) && step.Filter?
    requires GroupOk(s.groups[step.g], step.g, stages, s.budgetStopped, s.results)
    ensures var t := Next(s, stages, step);
            step.g in t.groups && GroupOk(t.groups[step.g], step.g, stages, t.budgetStopped, t.results)
  {
    EmptyClean(s.groups[step.g].readPass);
    PassingMembers(s.groups[step.g].convs, s.results);
    hide Clean, PassOk, AnyCancelled, AnyExhausted, Get, Collectable, Passing;
  }

  lemma MoveOk(s: Fleet, stages: Stages, step: Step)
    requires Enabled(s, stages, step) && (step.Close? || step.Quiesce? || step.EndQuiesce? || step.Unwind?)
    requires GroupOk(s.groups[step.g], step.g, stages, s.budgetStopped, s.results)
    ensures var t := Next(s, stages, step);
            step.g in t.groups && GroupOk(t.groups[step.g], step.g, stages, t.budgetStopped, t.results)
  {
    EmptyClean(s.groups[step.g].addPass);
    hide Clean, PassOk, AnyCancelled, AnyExhausted, Get;
  }

  lemma StepInv(s: Fleet, convs: seq<nat>, n: nat, stages: Stages, step: Step)
    requires n > 0 && Inv(s, convs, n, stages)
    ensures Inv(Next(s, stages, step), convs, n, stages)
  {
    if Enabled(s, stages, step) {
      var t := Next(s, stages, step);
      StepLocal(s, stages, step);
      hide GroupInv, Next, Enabled, ServersUsed;
      forall j | j in t.groups
        ensures GroupInv(t, j, convs, n, stages)
      {
        StepGroup(s, convs, n, stages, step, j);
      }
    }
  }

  lemma StepGroup(s: Fleet, convs: seq<nat>, n: nat, stages: Stages, step: Step, j: nat)
    requires n > 0 && Inv(s, convs, n, stages) && Enabled(s, stages, step) && j in s.groups
    ensures j in Next(s, stages, step).groups && GroupInv(Next(s, stages, step), j, convs, n, stages)
  {
    var t := Next(s, stages, step);
    StepLocal(s, stages, step);
    if j == step.g {
      StepGroupOk(s, stages, step);
    } else {
      forall c | c in s.groups[j].convs
        ensures Get(t.results, c) == Get(s.results, c)
      {
        OthersUntouched(s, convs, n, stages, step, j, c);
      }
      hide GroupOk, Next, Enabled, Get;
      OtherGroupOk(s.groups[j], j, stages, s, t);
    }
  }

  lemma InitialInv(convs: seq<nat>, n: nat, stages: Stages)
    requires n > 0
    ensures Inv(Initial(convs, n), convs, n, stages)
  {
    var s := Initial(convs, n);
    forall j | j in s.groups
      ensures GroupInv(s, j, convs, n, stages)
    {
      EmptyClean(NoPass());
    }
  }

  lemma {:induction false} AlwaysInv(convs: seq<nat>, n: nat, stages: Stages, steps: seq<Step>)
    requires n > 0
    ensures Inv(After(convs, n, stages, steps), convs, n, stages)
  {
    hide Inv, Next, Initial;
    if steps == [] {
      InitialInv(convs, n, stages);
    } else {
      AlwaysInv(convs, n, stages, steps[..|steps| - 1]);
      StepInv(After(convs, n, stages, steps[..|steps| - 1]), convs, n, stages, steps[|steps| - 1]);
    }
  }

  // ---- Phase safety ----

  // Every future of the conversation ended well, and there is one.
  predicate AllGood(p: Pass, c: nat)
  {
    && |p.works| == |p.convs| && c in p.convs
    && (forall k :: 0 <= k < |p.convs| && p.convs[k] == c ==> p.works[k] == Ended(Good))
  }

  // In every interleaving of a run that ingests: as soon as a server has a read pass at all, every ADD pass of
  // every conversation on that server has ended, the server was quiesced, and each conversation
  // to read was ingested without a failure.
  lemma ReadsSafe(convs: seq<nat>, n: nat, stages: Stages, steps: seq<Step>, j: nat)
    requires n > 0 && stages.add
    requires j in After(convs, n, stages, steps).groups && After(convs, n, stages, steps).groups[j].readPass.convs != []
    ensures var g := After(convs, n, stages, steps).groups[j];
            && g.addPass.convs == Share(convs, j, n) && |g.addPass.works| == |g.addPass.convs|
            && (forall k :: 0 <= k < |g.addPass.works| ==> g.addPass.works[k].Ended?)
            && g.quiesced
            && (forall c :: c in g.readPass.convs ==> c % n == j && AllGood(g.addPass, c))
  {
    AlwaysInv(convs, n, stages, steps);
    var s := After(convs, n, stages, steps);
    assert GroupOk(s.groups[j], j, stages, s.budgetStopped, s.results);
    GroupReadsSafe(s.groups[j], j, stages, s);
  }

  lemma GroupReadsSafe(g: Group, j: nat, stages: Stages, s: Fleet)
    requires stages.add && GroupOk(g, j, stages, s.budgetStopped, s.results) && g.readPass.convs != []
    ensures g.addPass.convs == g.convs && |g.addPass.works| == |g.addPass.convs| && g.quiesced
    ensures forall k :: 0 <= k < |g.addPass.works| ==> g.addPass.works[k].Ended?
    ensures forall c :: c in g.readPass.convs ==> c in g.convs && AllGood(g.addPass, c)
  {
    hide Get, AnyCancelled, AnyExhausted;
    forall c | c in g.readPass.convs
      ensures AllGood(g.addPass, c)
    {
      assert c in g.kept && Clean(g.addPass, c);
    }
  }

  // ---- How a run ends ----

  ghost predicate AllFinished(s: Fleet) { forall j :: j in s.groups ==> s.groups[j].phase.Finished? }

  // When every group came to its end and the account lasted, the results single out exactly the conversations
  // all of whose stages went well; a conversation whose ingest failed was not read at all.
  lemma ResultsExact(convs: seq<nat>, n: nat, stages: Stages, steps: seq<Step>, c: nat)
    requires n > 0 && c in convs
    requires AllFinished(After(convs, n, stages, steps)) && !After(convs, n, stages, steps).budgetStopped
    ensures var s := After(convs, n, stages, steps);
            c % n in s.groups &&
            var g := s.groups[c % n];
            && (Get(s.results, c)
                <==> (stages.add ==> AllGood(g.addPass, c)) && (stages.read ==> AllGood(g.readPass, c)))
            && (stages.add && !AllGood(g.addPass, c) ==> c !in g.readPass.convs)
  {
    AlwaysInv(convs, n, stages, steps);
    var s := After(convs, n, stages, steps);
    assert c % n in s.groups;
    assert c in s.groups[c % n].convs;
    GroupResultsExact(s.groups[c % n], c % n, stages, s, c);
  }

  lemma GroupResultsExact(g: Group, j: nat, stages: Stages, s: Fleet, c: nat)
    requires GroupOk(g, j, stages, s.budgetStopped, s.results) && !s.budgetStopped && g.phase.Finished? && c in g.convs
    ensures Get(s.results, c) <==> (stages.add ==> AllGood(g.addPass, c)) && (stages.read ==> AllGood(g.readPass, c))
    ensures stages.add && !AllGood(g.addPass, c) ==> c !in g.readPass.convs
  {
    CollectedAll(g.addPass, c);
    CollectedAll(g.readPass, c);
    EmptyClean(g.addPass);
    hide Get, AnyCancelled, AnyExhausted, Clean, AllGood, PassOk;
  }

  lemma CollectedAll(p: Pass, c: nat)
    requires PassOk(p) && Collectable(p)
    ensures AllGood(p, c) <==> c in p.convs && Clean(p, c)
    ensures c !in p.convs ==> Clean(p, c)
  {
  }
}
