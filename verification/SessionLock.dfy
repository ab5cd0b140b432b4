// Concurrent calls on one session under its lock: memory/src/everos/service/memorize.py:230-256 and
// memory/src/everos/service/_session_lock.py:1-56. Every await is a point where other calls run and where
// the timeout can cancel the call.
module SessionLock {
  import opened Prelude
  import opened MessageOrder
  import opened MessageMerge
  import opened BoundaryPlan
  import opened BoundaryRuns

  // Where a call is; `seen` is what it read from the buffer and `det` what the detector answered.
  datatype Pc =
    | Waiting
    | Started
    | HasRead(seen: seq<Message>)
    | Planned(seen: seq<Message>, det: Detection)
    | Inserted(seen: seq<Message>, det: Detection)
    | Settled(seen: seq<Message>, det: Detection)
    | Ended(reply: Reply, place: nat)
    | Stopped

  datatype Task = Task(call: Call, pc: Pc)

  // The durable session, the calls so far, who holds the lock, and the calls that got through, in order.
  datatype System = System(session: Session, tasks: seq<Task>, holder: Option<nat>, order: seq<Entry>)

  datatype Step =
    | Arrive(call: Call)
    | Acquire(i: nat)
    | Pass(i: nat)
    | Read(i: nat)
    | Decide(i: nat, det: Detection)
    | Insert(i: nat)
    | Write(i: nat)
    | Finish(i: nat)
    | Cancel(i: nat)

  // Between taking and releasing the lock.
  predicate Inside(pc: Pc) { !pc.Waiting? && !pc.Ended? && !pc.Stopped? }

  ghost function PlanSeen(c: Call, seen: seq<Message>, det: Detection): Plan { PlanOf(c, Merge(seen, Fresh(c)), det) }

  ghost predicate Enabled(s: System, step: Step)
  {
    step.Arrive? ||
    (step.i < |s.tasks| &&
     var Task(c, pc) := s.tasks[step.i];
     match step
     case Acquire(_) => pc.Waiting? && s.holder.None?
     case Pass(_) => pc.Started? && PassesBy(c)
     case Read(_) => pc.Started? && !PassesBy(c)
     case Decide(_, det) => pc.HasRead? && Cuts(det, Merge(pc.seen, Fresh(c)))
     case Insert(_) => pc.Planned? && PlanSeen(c, pc.seen, pc.det).Extract?
     case Write(_) => pc.Inserted? || (pc.Planned? && !PlanSeen(c, pc.seen, pc.det).Extract?)
     case Finish(_) => pc.Settled?
     case Cancel(_) => pc.Waiting? || Inside(pc))
  }

  function Moved(s: System, i: nat, pc: Pc): System
    requires i < |s.tasks|
  {
    s.(tasks := s.tasks[i := s.tasks[i].(pc := pc)])
  }

  // The call is over and the lock, if it held it, is free; a call whose writes are done takes its place in the order.
  function Left(s: System, i: nat, pc: Pc): System
    requires i < |s.tasks|
  {
    var Task(c, was) := s.tasks[i];
    var t := Moved(s, i, pc);
    t.(holder := if Inside(was) then None else s.holder,
       order := if was.Settled? then s.order + [Entry(c, was.det)] else s.order)
  }

  ghost function Next(s: System, step: Step): System
  {
    if !Enabled(s, step) then s
    else if step.Arrive? then s.(tasks := s.tasks + [Task(step.call, Waiting)])
    else
      var Task(c, pc) := s.tasks[step.i];
      match step
      case Acquire(i) => Moved(s, i, Started).(holder := Some(i))
      case Pass(i) => Moved(s, i, Settled([], Failed))
      case Read(i) => Moved(s, i, HasRead(s.session.buffer))
      case Decide(i, det) => Moved(s, i, Planned(pc.seen, det))
      case Insert(i) =>
        var rows := PlanSeen(c, pc.seen, pc.det).cells;
        Moved(s, i, Inserted(pc.seen, pc.det)).(session := s.session.(cells := s.session.cells + rows))
      case Write(i) =>
        var plan := PlanSeen(c, pc.seen, pc.det);
        var t := Moved(s, i, Settled(pc.seen, pc.det));
        if plan.Store? || plan.Extract? then t.(session := s.session.(buffer := plan.rows)) else t
      case Finish(i) => Left(s, i, Ended(Serve(Session(pc.seen, []), c, pc.det).1, |s.order|))
      case Cancel(i) => Left(s, i, Stopped)
  }

  ghost function After(steps: seq<Step>): System
  {
    if steps == [] then System(Session([], []), [], None, [])
    else Next(After(steps[..|steps| - 1]), steps[|steps| - 1])
  }

  // ---- Mutual exclusion ----

  // The only call between taking and releasing the lock is the holder, and until it writes,
  // the buffer is what it read.
  ghost predicate Exclusive(s: System)
  {
    && (forall i :: 0 <= i < |s.tasks| ==> (Inside(s.tasks[i].pc) <==> s.holder == Some(i)))
    && (s.holder.Some? ==> s.holder.value < |s.tasks| && Tracks(s, s.tasks[s.holder.value]))
  }

  ghost predicate Tracks(s: System, t: Task)
  {
    match t.pc
    case HasRead(seen) => seen == s.session.buffer && !PassesBy(t.call)
    case Planned(seen, det) => seen == s.session.buffer && !PassesBy(t.call) && Cuts(det, Merge(seen, Fresh(t.call)))
    case Inserted(seen, det) =>
      && seen == s.session.buffer && !PassesBy(t.call) && Cuts(det, Merge(seen, Fresh(t.call)))
      && PlanSeen(t.call, seen, det).Extract?
      && (forall id :: id in Flatten(PlanSeen(t.call, seen, det).cells) ==> id in ExtractedIds(s.session))
    case Settled(seen, det) => PassesBy(t.call) || Cuts(det, Merge(seen, Fresh(t.call)))
    case _ => true
  }

  lemma StepExclusive(s: System, step: Step)
    requires Exclusive(s)
    ensures Exclusive(Next(s, step))
  {
    hide Merge, Fresh, PassesBy, PlanSeen, PlanOf, Cuts, Serve, ExtractedIds;
    if step.Insert? && Enabled(s, step) {
      InsertExclusive(s, step);
    } else if Enabled(s, step) && step.Write? {
      hide Exclusive, Tracks;
      WriteExclusive(s, step);
    } else if Enabled(s, step) && !step.Arrive? {
      hide Exclusive, Tracks;
      MoveExclusive(s, step);
    }
  }

  // Nothing waits for ever: while a call waits or is inside, one of them can go on without being cancelled, the
  // detector raising if need be.
  lemma GoesOn(s: System, i: nat) returns (step: Step)
    requires Exclusive(s) && i < |s.tasks| && (s.tasks[i].pc.Waiting? || Inside(s.tasks[i].pc))
    ensures Enabled(s, step) && !step.Arrive? && !step.Cancel?
  {
    hide Merge, Fresh, PlanSeen, PassesBy, Tracks;
    if s.holder.None? {
      step := Acquire(i);
    } else {
      var j := s.holder.value;
      var Task(c, pc) := s.tasks[j];
      step :=
        match pc
        case Started => if PassesBy(c) then Pass(j) else Read(j)
        case HasRead(_) => Decide(j, Failed)
        case Planned(seen, det) => if PlanSeen(c, seen, det).Extract? then Insert(j) else Write(j)
        case Inserted(_, _) => Write(j)
        case _ => Finish(j);
    }
  }

  lemma InsertExclusive(s: System, step: Step)
    requires Exclusive(s) && Enabled(s, step) && step.Insert?
    ensures Exclusive(Next(s, step))
  {
    hide Merge, Fresh, PassesBy, PlanSeen, PlanOf, Cuts, Serve, ExtractedIds;
    var Task(c, pc) := s.tasks[step.i];
    RowsExtracted(s.session, PlanSeen(c, pc.seen, pc.det).cells);
  }

  lemma WriteExclusive(s: System, step: Step)
    requires Exclusive(s) && Enabled(s, step) && step.Write?
    ensures Exclusive(Next(s, step))
  {
    hide Merge, Fresh, PassesBy, PlanSeen, PlanOf, Cuts, Serve, ExtractedIds;
  }

  lemma MoveExclusive(s: System, step: Step)
    requires Exclusive(s) && Enabled(s, step) && !step.Arrive? && !step.Insert? && !step.Write?
    ensures Exclusive(Next(s, step))
  {
    hide Merge, Fresh, PassesBy, PlanSeen, PlanOf, Cuts, Serve, ExtractedIds;
  }

  lemma RowsExtracted(s: Session, cells: seq<seq<string>>)
    ensures forall id :: id in Flatten(cells) ==> id in ExtractedIds(s.(cells := s.cells + cells))
  {
    FlattenConcat(s.cells, cells);
  }

  // ---- No lost update ----

  // Every id that is in the buffer or in a ledger row.
  ghost function Covered(s: Session): set<string> { IdSet(s.buffer) + ExtractedIds(s) }

  // A plan that writes keeps, in what it writes, every id that was read and every new one.
  lemma PlanCovers(c: Call, seen: seq<Message>, det: Detection)
    requires Cuts(det, Merge(seen, Fresh(c))) && !PassesBy(c)
    ensures match PlanSeen(c, seen, det)
            case Keep => FreshIds(c) == {}
            case Store(rows, _) => IdSet(rows) == IdSet(seen) + FreshIds(c)
            case Extract(cells, rows) =>
              forall id :: id in IdSet(seen) + FreshIds(c) <==> id in IdSet(rows) || id in Flatten(cells)
            case Raise => true
  {
    hide *;
    var s := Session(seen, []);
    var merged := Merge(seen, Fresh(c));
    ServeIs(s, c, det);
    MergeIdSet(seen, Fresh(c));
    FreshIdsAre(c);
    PlanSeenIs(c, seen, det);
    match PlanSeen(c, seen, det)
    case Keep => EmptyMerge(seen, Fresh(c));
    case Store(_, _) =>
    case Extract(cells, rows) => ExtractCovers(merged, det, cells);
    case Raise =>
  }

  lemma PlanSeenIs(c: Call, seen: seq<Message>, det: Detection)
    ensures PlanSeen(c, seen, det) == PlanOf(c, Merge(seen, Fresh(c)), det)
  {
  }

  lemma ExtractCovers(merged: seq<Message>, det: Detection, cells: seq<seq<string>>)
    requires Tidy(merged) && det.Detected? && Cuts(det, merged) && Split(Ids(merged), det.cells) == Some(cells)
    ensures forall id :: id in IdSet(merged) <==> id in IdSet(SliceTail(merged, det.tail)) || id in Flatten(cells)
  {
    CutPlaces(merged, det.cells, det.tail);
    var tail := SliceTail(merged, det.tail);
    hide *;
    forall id
      ensures id in IdSet(merged) <==> id in IdSet(tail) || id in Flatten(cells)
    {
      IdsMembers(merged, id);
      IdsMembers(tail, id);
      SameCount(Flatten(cells), Ids(tail), Ids(merged), id);
    }
  }

  lemma SameCount(a: seq<string>, b: seq<string>, whole: seq<string>, id: string)
    requires multiset(a) + multiset(b) == multiset(whole)
    ensures id in whole <==> id in a || id in b
  {
    assert id in multiset(whole) <==> id in multiset(a) + multiset(b);
  }

  // What is kept at every moment: the ids of a call whose writes are done, or that has returned, are covered.
  ghost predicate Kept(s: System)
  {
    forall i :: 0 <= i < |s.tasks| ==> TaskKept(s.session, s.tasks[i])
  }

  ghost predicate TaskKept(session: Session, t: Task)
  {
    match t.pc
    case Settled(seen, det) => Serve(Session(seen, []), t.call, det).1.Returned? ==>
      FreshIds(t.call) <= Covered(session)
    case Ended(reply, _) => reply.Returned? ==> FreshIds(t.call) <= Covered(session)
    case _ => true
  }

  // What the session is after a step.
  lemma SessionAfter(s: System, step: Step)
    ensures var after := Next(s, step).session;
            if !Enabled(s, step) then after == s.session
            else match step
              case Insert(i) =>
                after == s.session.(cells := s.session.cells
                                    + PlanSeen(s.tasks[i].call, s.tasks[i].pc.seen, s.tasks[i].pc.det).cells)
              case Write(i) =>
                var plan := PlanSeen(s.tasks[i].call, s.tasks[i].pc.seen, s.tasks[i].pc.det);
                after == if plan.Store? || plan.Extract? then s.session.(buffer := plan.rows) else s.session
              case _ => after == s.session
  {
    hide PlanSeen, PlanOf, Merge, Fresh, Serve, Cuts;
  }

  // No step loses an id, and a write covers the ids of the call that writes.
  lemma StepCovers(s: System, step: Step)
    requires Exclusive(s)
    ensures Covered(s.session) <= Covered(Next(s, step).session)
    ensures Enabled(s, step) && step.Write?
            && !PlanSeen(s.tasks[step.i].call, s.tasks[step.i].pc.seen, s.tasks[step.i].pc.det).Raise? ==>
              FreshIds(s.tasks[step.i].call) <= Covered(Next(s, step).session)
  {
    SessionAfter(s, step);
    hide Next, PlanSeen, PlanOf, Merge, Fresh, FreshIds, Serve, Cuts, PassesBy, IdSet;
    if Enabled(s, step) && step.Insert? {
      FlattenConcat(s.session.cells,
                    PlanSeen(s.tasks[step.i].call, s.tasks[step.i].pc.seen, s.tasks[step.i].pc.det).cells);
    }
    if Enabled(s, step) && step.Write? {
      var Task(c, pc) := s.tasks[step.i];
      PlanCovers(c, pc.seen, pc.det);
    }
  }

  // The answer of a call depends on its plan alone.
  lemma AnswerRaises(c: Call, s: Session, det: Detection)
    requires !PassesBy(c)
    ensures Serve(s, c, det).1.Raised? <==> PlanSeen(c, s.buffer, det).Raise?
  {
    hide Merge, Fresh, PlanOf;
  }

  lemma StepKept(s: System, step: Step)
    requires Exclusive(s) && Kept(s)
    ensures Kept(Next(s, step))
  {
    StepCovers(s, step);
    var t := Next(s, step);
    forall i | 0 <= i < |t.tasks|
      ensures TaskKept(t.session, t.tasks[i])
    {
      TaskStepKept(s, step, i);
    }
  }

  lemma TaskStepKept(s: System, step: Step, i: nat)
    requires Exclusive(s) && Kept(s) && i < |Next(s, step).tasks|
    ensures TaskKept(Next(s, step).session, Next(s, step).tasks[i])
  {
    if i < |s.tasks| && Next(s, step).tasks[i] == s.tasks[i] {
      StepCovers(s, step);
      hide Next, FreshIds, Covered, Serve;
      assert TaskKept(s.session, s.tasks[i]);
    } else {
      ChangedTaskKept(s, step, i);
    }
  }

  lemma ChangedTaskKept(s: System, step: Step, i: nat)
    requires Exclusive(s) && Kept(s) && i < |Next(s, step).tasks|
    requires i < |s.tasks| ==> Next(s, step).tasks[i] != s.tasks[i]
    ensures TaskKept(Next(s, step).session, Next(s, step).tasks[i])
  {
    hide Exclusive, Tracks, PlanSeen, PlanOf, Merge, Fresh, FreshIds, Serve, Cuts, Covered, PassesBy;
    if Enabled(s, step) && !step.Arrive? {
      assert step.i == i && TaskKept(s.session, s.tasks[i]);
      if step.Write? {
        StepCovers(s, step);
        WriterAnswers(s, step);
      } else if step.Pass? {
        NoNewIds(s.tasks[i].call);
      }
    }
  }

  lemma WriterAnswers(s: System, step: Step)
    requires Exclusive(s) && Enabled(s, step) && step.Write?
    ensures var Task(c, pc) := s.tasks[step.i];
            Serve(Session(pc.seen, []), c, pc.det).1.Raised? <==> PlanSeen(c, pc.seen, pc.det).Raise?
  {
    hide PlanSeen, PlanOf, Merge, Fresh, Serve, Cuts, PassesBy;
    AnswerRaises(s.tasks[step.i].call, Session(s.tasks[step.i].pc.seen, []), s.tasks[step.i].pc.det);
  }

  lemma NoNewIds(c: Call)
    requires PassesBy(c)
    ensures FreshIds(c) == {}
  {
  }

  // For any interleaving of any calls, cancelled anywhere: an id that was once in the buffer or in a ledger row,
  // and every id of a call that returned, is in one of them ever after.
  lemma {:induction false} NoLostUpdate(steps: seq<Step>, k: nat)
    requires k <= |steps|
    ensures Exclusive(After(steps)) && Kept(After(steps))
    ensures Covered(After(steps[..k]).session) <= Covered(After(steps).session)
    decreases |steps|
  {
    hide Next, Exclusive, Kept, Covered;
    if k == |steps| {
      assert steps[..k] == steps;
    }
    if steps == [] {
      NothingStarted();
    } else {
      var before, step := steps[..|steps| - 1], steps[|steps| - 1];
      NoLostUpdate(before, if k < |steps| then k else k - 1);
      if k < |steps| {
        assert before[..k] == steps[..k];
      }
      StepExclusive(After(before), step);
      StepCovers(After(before), step);
      StepKept(After(before), step);
    }
  }

  lemma NothingStarted()
    ensures Exclusive(After([])) && Kept(After([]))
  {
  }

  // ---- Serial order ----

  // A cancellation between the two writes of an extraction.
  predicate TearsExtraction(s: System, step: Step)
  {
    step.Cancel? && step.i < |s.tasks| && s.tasks[step.i].pc.Inserted?
  }

  ghost predicate NeverTorn(steps: seq<Step>)
  {
    steps != [] ==>
      var before := steps[..|steps| - 1];
      NeverTorn(before) && !TearsExtraction(After(before), steps[|steps| - 1])
  }

  // The session is what the calls in the order make it one after the other, and what the lock holder has
  // written so far on top.
  ghost predicate Serial(s: System)
  {
    && OrderCuts(s.order)
    && (forall i :: 0 <= i < |s.tasks| ==> Answered(s.order, s.tasks[i]))
    && (if s.holder.None? || s.holder.value >= |s.tasks| then s.session == StateAfter(s.order)
        else OnTop(s.session, StateAfter(s.order), s.tasks[s.holder.value]))
  }

  ghost predicate OnTop(session: Session, base: Session, t: Task)
  {
    match t.pc
    case Inserted(seen, det) =>
      PlanSeen(t.call, seen, det).Extract? && session == base.(cells := base.cells + PlanSeen(t.call, seen, det).cells)
    case Settled(seen, det) =>
      && session == Serve(base, t.call, det).0 && Serve(Session(seen, []), t.call, det).1 == Serve(base, t.call, det).1
      && Cuts(det, Merge(base.buffer, Fresh(t.call)))
    case _ => session == base
  }

  // The detector kept its contract at every place of the order.
  ghost predicate OrderCuts(order: seq<Entry>)
  {
    order != [] ==>
      var before, e := order[..|order| - 1], order[|order| - 1];
      OrderCuts(before) && Cuts(e.det, Merge(StateAfter(before).buffer, Fresh(e.call)))
  }

  // A call that came to an end answered what it would have answered at its place of the order.
  ghost predicate Answered(order: seq<Entry>, t: Task)
  {
    t.pc.Ended? ==>
      && t.pc.place < |order| && order[t.pc.place].call == t.call
      && t.pc.reply == Serve(StateAfter(order[..t.pc.place]), t.call, order[t.pc.place].det).1
  }

  lemma AnsweredLonger(order: seq<Entry>, e: Entry, t: Task)
    requires Answered(order, t)
    ensures Answered(order + [e], t)
  {
    hide Serve, StateAfter;
    if t.pc.Ended? {
      assert (order + [e])[..t.pc.place] == order[..t.pc.place];
    }
  }

  lemma AnsweredLast(order: seq<Entry>, e: Entry, t: Task)
    requires t.pc == Ended(Serve(StateAfter(order), e.call, e.det).1, |order|) && t.call == e.call
    ensures Answered(order + [e], t)
  {
    assert (order + [e])[..|order|] == order;
  }

  lemma OrderGrows(order: seq<Entry>, e: Entry)
    ensures StateAfter(order + [e]) == Serve(StateAfter(order), e.call, e.det).0
    ensures OrderCuts(order + [e]) <==> OrderCuts(order) && Cuts(e.det, Merge(StateAfter(order).buffer, Fresh(e.call)))
  {
    hide Serve, Merge, Cuts, Fresh;
    assert (order + [e])[..|order|] == order;
  }

  // What the effect of a plan has to do with the plan's writes.
  lemma ServeByPlan(base: Session, c: Call, det: Detection)
    requires !PassesBy(c)
    ensures Serve(base, c, det).1 == Serve(Session(base.buffer, []), c, det).1
    ensures Serve(base, c, det).0 ==
            match PlanSeen(c, base.buffer, det)
            case Store(rows, _) => base.(buffer := rows)
            case Extract(cells, rows) => Session(rows, base.cells + cells)
            case _ => base
  {
    hide Merge, Fresh, PlanOf;
  }

  lemma ServePassing(base: Session, c: Call, det: Detection)
    requires PassesBy(c)
    ensures Serve(base, c, det) == (base, Returned(Skipped, [], 0))
  {
  }

  lemma StepSerial(s: System, step: Step)
    requires Exclusive(s) && Serial(s) && !TearsExtraction(s, step)
    ensures Serial(Next(s, step))
  {
    hide PlanSeen, PlanOf, Merge, Fresh, Serve, Cuts, PassesBy, StateAfter, OrderCuts, Serial, Exclusive, Tracks;
    if Enabled(s, step) && !step.Arrive? {
      if s.tasks[step.i].pc.Settled? {
        LeaveSerial(s, step);
      } else if step.Write? {
        WriteSerial(s, step);
      } else if step.Pass? {
        PassSerial(s, step);
      } else {
        QuietSerial(s, step);
      }
    } else {
      QuietSerial(s, step);
    }
  }

  lemma LeaveSerial(s: System, step: Step)
    requires Exclusive(s) && Serial(s) && Enabled(s, step) && !step.Arrive? && s.tasks[step.i].pc.Settled?
    ensures Serial(Next(s, step))
  {
    LeavingAnswers(s, step);
    hide PlanSeen, PlanOf, Merge, Fresh, Serve, Cuts, PassesBy, StateAfter, OrderCuts, Answered;
    OrderGrows(s.order, Entry(s.tasks[step.i].call, s.tasks[step.i].pc.det));
  }

  lemma WriteSerial(s: System, step: Step)
    requires Exclusive(s) && Serial(s) && Enabled(s, step) && step.Write?
    ensures Serial(Next(s, step))
  {
    hide PlanSeen, PlanOf, Merge, Fresh, Serve, Cuts, PassesBy, StateAfter, OrderCuts, Answered;
    ServeByPlan(StateAfter(s.order), s.tasks[step.i].call, s.tasks[step.i].pc.det);
    OthersAnswered(s, step);
  }

  lemma PassSerial(s: System, step: Step)
    requires Exclusive(s) && Serial(s) && Enabled(s, step) && step.Pass?
    ensures Serial(Next(s, step))
  {
    var c := s.tasks[step.i].call;
    CutsNothing(Merge(StateAfter(s.order).buffer, Fresh(c)));
    hide PlanSeen, PlanOf, Merge, Fresh, Serve, Cuts, PassesBy, StateAfter, OrderCuts, Answered;
    ServePassing(StateAfter(s.order), c, Failed);
    ServePassing(Session([], []), c, Failed);
    OthersAnswered(s, step);
  }

  lemma CutsNothing(merged: seq<Message>)
    ensures Cuts(Failed, merged)
  {
  }

  // A step that writes no buffer and ends no settled call.
  lemma QuietSerial(s: System, step: Step)
    requires Exclusive(s) && Serial(s) && !TearsExtraction(s, step)
    requires !Enabled(s, step) || step.Arrive? || (!s.tasks[step.i].pc.Settled? && !step.Write? && !step.Pass?)
    ensures Serial(Next(s, step))
  {
    hide PlanSeen, PlanOf, Merge, Fresh, Serve, Cuts, PassesBy, StateAfter, OrderCuts, Answered;
    OthersAnswered(s, step);
  }

  lemma OthersAnswered(s: System, step: Step)
    requires forall i :: 0 <= i < |s.tasks| ==> Answered(s.order, s.tasks[i])
    requires !Enabled(s, step) || step.Arrive? || !s.tasks[step.i].pc.Settled?
    ensures Next(s, step).order == s.order
    ensures forall i :: 0 <= i < |Next(s, step).tasks| ==> Answered(s.order, Next(s, step).tasks[i])
  {
    hide PlanSeen, PlanOf, Merge, Fresh, Serve, Cuts, PassesBy, StateAfter, OrderCuts, Answered;
    var t := Next(s, step);
    forall i | 0 <= i < |t.tasks|
      ensures Answered(s.order, t.tasks[i])
    {
      if i >= |s.tasks| || t.tasks[i] != s.tasks[i] {
        NotEnded(s.order, t.tasks[i]);
      }
    }
  }

  lemma LeavingAnswers(s: System, step: Step)
    requires Exclusive(s) && Serial(s) && Enabled(s, step) && !step.Arrive? && s.tasks[step.i].pc.Settled?
    ensures var t := Next(s, step);
            forall i :: 0 <= i < |t.tasks| ==> Answered(t.order, t.tasks[i])
  {
    hide PlanSeen, PlanOf, Merge, Fresh, Serve, Cuts, PassesBy, StateAfter, OrderCuts, Answered;
    var t, e := Next(s, step), Entry(s.tasks[step.i].call, s.tasks[step.i].pc.det);
    assert t.order == s.order + [e];
    forall i | 0 <= i < |t.tasks|
      ensures Answered(t.order, t.tasks[i])
    {
      if i != step.i {
        AnsweredLonger(s.order, e, t.tasks[i]);
      } else if step.Finish? {
        AnsweredLast(s.order, e, t.tasks[i]);
      } else {
        NotEnded(t.order, t.tasks[i]);
      }
    }
  }

  lemma NotEnded(order: seq<Entry>, t: Task)
    requires !t.pc.Ended?
    ensures Answered(order, t)
  {
  }

  // Unless an extraction is cancelled between its two writes, every interleaving leaves the session that the
  // calls make one after the other, in the order in which they came to an end, with the same answers.
  lemma {:induction false} EqualsSerialOrder(steps: seq<Step>)
    requires NeverTorn(steps)
    ensures var s := After(steps);
            && Serial(s)
            && (s.holder.None? ==> s.session == StateAfter(s.order))
  {
    hide Next, Serial, Exclusive, Kept, Covered, TearsExtraction;
    if steps == [] {
      NoOrderYet();
    } else {
      var before := steps[..|steps| - 1];
      EqualsSerialOrder(before);
      NoLostUpdate(before, 0);
      StepSerial(After(before), steps[|steps| - 1]);
    }
    SerialMeans(After(steps));
  }

  lemma SerialMeans(s: System)
    requires Serial(s)
    ensures s.holder.None? ==> s.session == StateAfter(s.order)
  {
  }

  lemma NoOrderYet()
    ensures Serial(After([]))
  {
  }

  // So concurrent calls keep every accepted message exactly once, as calls one after the other do.
  lemma ConcurrentExactlyOnce(steps: seq<Step>)
    requires NeverTorn(steps) && After(steps).holder.None? && NoResend(After(steps).order)
    ensures ExactlyOnce(After(steps).session, Accepted(After(steps).order))
  {
    hide *;
    var s := After(steps);
    EqualsSerialOrder(steps);
    SerialCuts(s);
    OrderlyIs(s.order);
    RunsConserve(s.order);
  }

  ghost predicate NoResend(order: seq<Entry>)
  {
    order != [] ==>
      var before, e := order[..|order| - 1], order[|order| - 1];
      NoResend(before) && (Serve(StateAfter(before), e.call, e.det).1.Returned? ==>
                           FreshIds(e.call) !! ExtractedIds(StateAfter(before)))
  }

  lemma SerialCuts(s: System)
    requires Serial(s)
    ensures OrderCuts(s.order)
  {
  }

  lemma {:induction false} OrderlyIs(order: seq<Entry>)
    ensures Orderly(order) <==> OrderCuts(order) && NoResend(order)
  {
    hide Serve, StateAfter, Merge, Fresh, FreshIds, ExtractedIds, Cuts;
    if order != [] {
      OrderlyIs(order[..|order| - 1]);
    }
  }

  // ---- A torn extraction ----

  ghost predicate TakesFrom(cells: seq<seq<string>>, buffer: seq<Message>)
  {
    exists id :: id in Flatten(cells) && id in IdSet(buffer)
  }

  // What a cancellation between the two writes leaves: the ledger rows are there and the buffer still holds
  // what was read. It breaks "exactly once" exactly when a row took a message from the buffer, and the ids in
  // both places are those.
  lemma TornExtraction(s: Session, accepted: set<string>, c: Call, det: Detection)
    requires ExactlyOnce(s, accepted) && Cuts(det, Merge(s.buffer, Fresh(c))) && FreshIds(c) !! ExtractedIds(s)
    requires !PassesBy(c) && PlanSeen(c, s.buffer, det).Extract?
    ensures var cells := PlanSeen(c, s.buffer, det).cells;
            var torn := s.(cells := s.cells + cells);
            && (forall id ::
                id in IdSet(torn.buffer) && id in ExtractedIds(torn) <==>
                id in IdSet(s.buffer) && id in Flatten(cells))
            && (HeldOnce(torn) <==> !TakesFrom(cells, s.buffer))
  {
    hide Merge, Fresh, PlanSeen, PlanOf, Cuts, IdSet, FreshIds, Tidy, Serve, PassesBy, Places, Ids;
    var cells := PlanSeen(c, s.buffer, det).cells;
    var torn := s.(cells := s.cells + cells);
    FlattenConcat(s.cells, cells);
    forall id
      ensures id in IdSet(torn.buffer) && id in ExtractedIds(torn) <==> id in IdSet(s.buffer) && id in Flatten(cells)
    {
      ExactlyOnceMeans(s, accepted, id);
    }
    if HeldOnce(torn) {
      var held :| ExactlyOnce(torn, held);
      forall id | id in Flatten(cells)
        ensures id !in IdSet(s.buffer)
      {
        ExactlyOnceMeans(torn, held, id);
      }
    }
    if !TakesFrom(cells, s.buffer) {
      TornButWhole(s, accepted, c, det);
    }
  }

  // The same for a call that an exception of a repository or a pipeline ends, wherever that is: no message is lost, and
  // some are held twice exactly when it comes between the two writes of an extraction that takes from the buffer.
  lemma HaltedConserves(s: Session, accepted: set<string>, c: Call, det: Detection, halt: Halt)
    requires ExactlyOnce(s, accepted) && Cuts(det, Merge(s.buffer, Fresh(c))) && FreshIds(c) !! ExtractedIds(s)
    ensures var after, plan := ServeHalted(s, c, det, halt).0, PlanSeen(c, s.buffer, det);
            && (HeldOnce(after)
                <==> !(!PassesBy(c) && plan.Extract? && halt.AtReplace? && TakesFrom(plan.cells, s.buffer)))
            && forall id :: id in accepted ==> id in IdSet(after.buffer) || id in ExtractedIds(after)
  {
    hide *;
    var after := ServeHalted(s, c, det, halt).0;
    HaltedIs(s, c, det, halt);
    ServeConserves(s, c, det, accepted);
    if !PassesBy(c) && PlanSeen(c, s.buffer, det).Extract? && halt.AtReplace? {
      TornExtraction(s, accepted, c, det);
      MoreRows(s, after, accepted);
    } else if after == s {
      WholeHeld(s, accepted, accepted);
    } else {
      WholeHeld(after, accepted + FreshIds(c), accepted);
    }
  }

  lemma HaltedIs(s: Session, c: Call, det: Detection, halt: Halt)
    ensures var after, plan := ServeHalted(s, c, det, halt).0, PlanSeen(c, s.buffer, det);
            if !PassesBy(c) && plan.Extract? && halt.AtReplace? then after == s.(cells := s.cells + plan.cells)
            else after == s || (after == Serve(s, c, det).0 && Serve(s, c, det).1.Returned?)
  {
    hide Merge, Fresh, PlanOf, PassesBy;
  }

  lemma WholeHeld(s: Session, held: set<string>, accepted: set<string>)
    requires ExactlyOnce(s, held) && accepted <= held
    ensures HeldOnce(s) && forall id :: id in accepted ==> id in IdSet(s.buffer) || id in ExtractedIds(s)
  {
    forall id | id in accepted
      ensures id in IdSet(s.buffer) || id in ExtractedIds(s)
    {
      ExactlyOnceMeans(s, held, id);
    }
  }

  lemma MoreRows(s: Session, after: Session, accepted: set<string>)
    requires ExactlyOnce(s, accepted) && after.buffer == s.buffer && s.cells <= after.cells
    ensures forall id :: id in accepted ==> id in IdSet(after.buffer) || id in ExtractedIds(after)
  {
    WholeHeld(s, accepted, accepted);
    FlattenConcat(s.cells, after.cells[|s.cells|..]);
    assert after.cells == s.cells + after.cells[|s.cells|..];
  }

  // The ledger rows of a call that has inserted them and not yet rewritten the buffer.
  ghost function RowsWritten(t: Task): seq<seq<string>>
  {
    match t.pc
    case Inserted(seen, det) =>
      var plan := PlanSeen(t.call, seen, det);
      if plan.Extract? then plan.cells else []
    case _ => []
  }

  // That is where a run ends up whose last step is such a cancellation, the first of its kind.
  lemma TornRun(steps: seq<Step>, i: nat)
    requires NeverTorn(steps) && TearsExtraction(After(steps), Cancel(i)) && NoResend(After(steps).order)
    requires FreshIds(After(steps).tasks[i].call) !! ExtractedIds(StateAfter(After(steps).order))
    ensures var torn := After(steps + [Cancel(i)]).session;
            && torn.buffer == StateAfter(After(steps).order).buffer
            && (HeldOnce(torn) <==> !TakesFrom(RowsWritten(After(steps).tasks[i]), torn.buffer))
  {
    hide *;
    var s := After(steps);
    EqualsSerialOrder(steps);
    NoLostUpdate(steps, 0);
    SerialCuts(s);
    OrderlyIs(s.order);
    RunsConserve(s.order);
    AfterOneMore(steps, Cancel(i));
    TornStep(s, i, Accepted(s.order));
  }

  lemma TornStep(s: System, i: nat, accepted: set<string>)
    requires Exclusive(s) && Serial(s) && TearsExtraction(s, Cancel(i)) && ExactlyOnce(StateAfter(s.order), accepted)
    requires FreshIds(s.tasks[i].call) !! ExtractedIds(StateAfter(s.order))
    ensures var torn := Next(s, Cancel(i)).session;
            && torn.buffer == StateAfter(s.order).buffer
            && (HeldOnce(torn) <==> !TakesFrom(RowsWritten(s.tasks[i]), torn.buffer))
  {
    hide *;
    HalfWritten(s, i);
    TornExtraction(StateAfter(s.order), accepted, s.tasks[i].call, s.tasks[i].pc.det);
  }

  lemma AfterOneMore(steps: seq<Step>, step: Step)
    ensures After(steps + [step]) == Next(After(steps), step)
  {
    assert (steps + [step])[..|steps|] == steps;
  }

  lemma HalfWritten(s: System, i: nat)
    requires Exclusive(s) && Serial(s) && TearsExtraction(s, Cancel(i))
    ensures i < |s.tasks| && s.tasks[i].pc.Inserted?
    ensures var base, Task(c, pc) := StateAfter(s.order), s.tasks[i];
            && pc.seen == base.buffer && Cuts(pc.det, Merge(base.buffer, Fresh(c))) && !PassesBy(c)
            && PlanSeen(c, base.buffer, pc.det).Extract?
            && RowsWritten(s.tasks[i]) == PlanSeen(c, base.buffer, pc.det).cells
            && Next(s, Cancel(i)).session == base.(cells := base.cells + PlanSeen(c, base.buffer, pc.det).cells)
  {
    hide PlanSeen, PlanOf, Merge, Fresh, Serve, Cuts, PassesBy, StateAfter, OrderCuts, Answered;
  }

  // When the rows hold only the cancelled call's own messages, it is as if those had been accepted.
  lemma TornButWhole(s: Session, accepted: set<string>, c: Call, det: Detection)
    requires ExactlyOnce(s, accepted) && Cuts(det, Merge(s.buffer, Fresh(c))) && FreshIds(c) !! ExtractedIds(s)
    requires !PassesBy(c) && PlanSeen(c, s.buffer, det).Extract?
    requires forall id :: id in Flatten(PlanSeen(c, s.buffer, det).cells) ==> id !in IdSet(s.buffer)
    ensures var cells := PlanSeen(c, s.buffer, det).cells;
            ExactlyOnce(s.(cells := s.cells + cells), accepted + (set id | id in Flatten(cells)))
  {
    hide *;
    var cells := PlanSeen(c, s.buffer, det).cells;
    CellsDistinct(c, s.buffer, det);
    PlanCovers(c, s.buffer, det);
    FreshNotHeld(s, accepted, c, Flatten(cells));
    AddExtracted(s, accepted, cells);
  }

  lemma FreshNotHeld(s: Session, accepted: set<string>, c: Call, taken: seq<string>)
    requires ExactlyOnce(s, accepted) && FreshIds(c) !! ExtractedIds(s)
    requires forall id :: id in taken ==> id !in IdSet(s.buffer) && id in IdSet(s.buffer) + FreshIds(c)
    ensures forall id :: id in taken ==> id !in accepted
  {
    hide ExactlyOnce, FreshIds, IdSet, ExtractedIds;
    forall id | id in taken
      ensures id !in accepted
    {
      ExactlyOnceMeans(s, accepted, id);
    }
  }

  lemma CellsDistinct(c: Call, seen: seq<Message>, det: Detection)
    requires Cuts(det, Merge(seen, Fresh(c))) && !PassesBy(c) && PlanSeen(c, seen, det).Extract?
    ensures multiset(Flatten(PlanSeen(c, seen, det).cells)) ==
            multiset(set id | id in Flatten(PlanSeen(c, seen, det).cells))
  {
    hide *;
    var merged := Merge(seen, Fresh(c));
    ServeIs(Session(seen, []), c, det);
    PlanSeenIs(c, seen, det);
    MergeIdSet(seen, Fresh(c));
    var cells := PlanSeen(c, seen, det).cells;
    CutPlaces(merged, det.cells, det.tail) by { CutsMeans(det, merged); }
    TidyIds(merged);
    SubDistinct(Flatten(cells), Ids(SliceTail(merged, det.tail)), IdSet(merged));
  }

  lemma SubDistinct(a: seq<string>, b: seq<string>, whole: set<string>)
    requires multiset(a) + multiset(b) == multiset(whole)
    ensures multiset(a) == multiset(set id | id in a)
  {
    forall id
      ensures multiset(a)[id] == multiset(set x | x in a)[id]
    {
      assert multiset(whole)[id] == multiset(a)[id] + multiset(b)[id];
      assert id in a <==> id in multiset(a);
    }
  }

  lemma AddExtracted(s: Session, accepted: set<string>, cells: seq<seq<string>>)
    requires ExactlyOnce(s, accepted) && forall id :: id in Flatten(cells) ==> id !in accepted
    requires multiset(Flatten(cells)) == multiset(set id | id in Flatten(cells))
    ensures ExactlyOnce(s.(cells := s.cells + cells), accepted + (set id | id in Flatten(cells)))
  {
    hide Tidy, Ids;
    FlattenConcat(s.cells, cells);
    var a, b, more := Flatten(s.cells), Flatten(cells), set id | id in Flatten(cells);
    assert multiset(a + b) == multiset(a) + multiset(b);
    assert multiset(accepted + more) == multiset(accepted) + multiset(more);
  }
}
