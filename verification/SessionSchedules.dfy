// Two schedules of calls on one session: what the lock of memory/src/everos/service/_session_lock.py:1-28 is
// for, and what a timeout can do inside it.
module SessionSchedules {
  import opened Prelude
  import opened MessageOrder
  import opened MessageMerge
  import opened BoundaryPlan
  import opened BoundaryRuns
  import opened SessionLock

  // ---- Without the lock ----

  // The same machine with a lock that keeps nobody out.
  ghost function NextUnguarded(s: System, step: Step): System
  {
    if step.Acquire? && step.i < |s.tasks| && s.tasks[step.i].pc.Waiting? then
      Moved(s, step.i, Started).(holder := Some(step.i))
    else Next(s, step)
  }

  ghost function RunUnguarded(s: System, steps: seq<Step>): System
  {
    if steps == [] then s else NextUnguarded(RunUnguarded(s, steps[..|steps| - 1]), steps[|steps| - 1])
  }

  predicate HasReturned(t: Task) { t.pc.Ended? && t.pc.reply.Returned? }

  // Two deferred calls on a session that both read before either writes.
  function BothRead(): seq<Step>
  {
    [Acquire(0), Acquire(1), Read(0), Read(1), Decide(0, Failed), Decide(1, Failed), Write(0), Write(1), Finish(0),
     Finish(1)]
  }

  ghost function TwoCalls(session: Session, first: Call, second: Call, a: Pc, b: Pc): System
  {
    System(session, [Task(first, a), Task(second, b)], None, [])
  }

  // Without the lock both return, the second write overwrites the first, and what is lost is exactly what only the
  // first call brought. With the lock the second call cannot get in before the first is done.
  lemma LostWithoutLock(session: Session, first: Call, second: Call)
    requires BuffersOnly(first) && BuffersOnly(second) && !PassesBy(first) && !PassesBy(second)
    ensures var start := TwoCalls(session, first, second, Waiting, Waiting);
            var end := RunUnguarded(start, BothRead());
            && |end.tasks| == 2 && HasReturned(end.tasks[0]) && HasReturned(end.tasks[1])
            && end.session == session.(buffer := Merge(session.buffer, Fresh(second)))
            && (Covered(session) + FreshIds(first) + FreshIds(second)) - Covered(end.session)
               == FreshIds(first) - FreshIds(second) - Covered(session)
            && !Enabled(Next(start, Acquire(0)), Acquire(1))
  {
    var start := TwoCalls(session, first, second, Waiting, Waiting);
    UnguardedReads(session, first, second);
    UnguardedWrites(session, first, second);
    MergeIdSet(session.buffer, Fresh(second));
    FreshIdsAre(first);
    FreshIdsAre(second);
    hide Merge, Fresh, FreshIds, IdSet, RunUnguarded, NextUnguarded, Serve, PlanOf, PassesBy, BuffersOnly;
  }

  lemma OneMoreUnguarded(s: System, steps: seq<Step>, k: nat)
    requires k < |steps|
    ensures RunUnguarded(s, steps[..k + 1]) == NextUnguarded(RunUnguarded(s, steps[..k]), steps[k])
  {
    assert steps[..k + 1][..k] == steps[..k];
  }

  ghost predicate At(s: System, session: Session, first: Call, second: Call, a: Pc, b: Pc)
  {
    s.session == session && s.tasks == [Task(first, a), Task(second, b)]
  }

  lemma UnguardedReads(session: Session, first: Call, second: Call)
    requires !PassesBy(first) && !PassesBy(second)
    ensures At(RunUnguarded(TwoCalls(session, first, second, Waiting, Waiting), BothRead()[..4]),
               session, first, second,
               HasRead(session.buffer), HasRead(session.buffer))
  {
    hide Merge, Fresh, PassesBy, PlanOf, Serve, RunUnguarded;
    var start := TwoCalls(session, first, second, Waiting, Waiting);
    assert BothRead()[..0] == [] && RunUnguarded(start, []) == start by { NothingRun(start); }
    OneMoreUnguarded(start, BothRead(), 0);
    OneMoreUnguarded(start, BothRead(), 1);
    OneMoreUnguarded(start, BothRead(), 2);
    OneMoreUnguarded(start, BothRead(), 3);
  }

  lemma NothingRun(s: System)
    ensures RunUnguarded(s, []) == s
  {
  }

  lemma UnguardedWrites(session: Session, first: Call, second: Call)
    requires BuffersOnly(first) && BuffersOnly(second) && !PassesBy(first) && !PassesBy(second)
    requires At(RunUnguarded(TwoCalls(session, first, second, Waiting, Waiting), BothRead()[..4]),
                session, first, second,
                HasRead(session.buffer), HasRead(session.buffer))
    ensures var end := RunUnguarded(TwoCalls(session, first, second, Waiting, Waiting), BothRead());
            && |end.tasks| == 2 && end.session == session.(buffer := Merge(session.buffer, Fresh(second)))
            && HasReturned(end.tasks[0]) && HasReturned(end.tasks[1])
  {
    hide NextUnguarded, RunUnguarded, Next, Merge, Fresh, PassesBy, BuffersOnly, At, HasReturned;
    var start := TwoCalls(session, first, second, Waiting, Waiting);
    BothDecide(start, BothRead(), session, first, second);
    BothWrite(start, BothRead(), session, first, second);
    BothFinish(start, BothRead(), session.(buffer := Merge(session.buffer, Fresh(second))), first, second,
               session.buffer);
  }

  lemma GuardedElsewhere(s: System, step: Step)
    ensures !step.Acquire? ==> NextUnguarded(s, step) == Next(s, step)
  {
    hide Next;
  }

  lemma Decides(s: System, i: nat, seen: seq<Message>, det: Detection)
    requires i < |s.tasks| && s.tasks[i].pc == HasRead(seen) && Cuts(det, Merge(seen, Fresh(s.tasks[i].call)))
    ensures Next(s, Decide(i, det)) == Moved(s, i, Planned(seen, det))
  {
    hide Merge, Fresh, Cuts, PlanSeen, Left, Serve, PassesBy;
  }

  lemma Writes(s: System, i: nat, seen: seq<Message>)
    requires i < |s.tasks| && s.tasks[i].pc == Planned(seen, Failed)
    requires BuffersOnly(s.tasks[i].call) && !PassesBy(s.tasks[i].call)
    ensures Next(s, Write(i)) ==
            Moved(s, i, Settled(seen, Failed)).(session := s.session.(buffer := Merge(seen, Fresh(s.tasks[i].call))))
  {
    BufferingPlan(s.tasks[i].call, seen);
    hide Merge, Fresh, PlanSeen, PassesBy, BuffersOnly;
  }

  lemma Finishes(s: System, i: nat, seen: seq<Message>)
    requires i < |s.tasks| && s.tasks[i].pc == Settled(seen, Failed)
    requires BuffersOnly(s.tasks[i].call) && !PassesBy(s.tasks[i].call)
    ensures var t := Next(s, Finish(i));
            && t.session == s.session && |t.tasks| == |s.tasks| && HasReturned(t.tasks[i]) && t.holder == None
            && forall k :: 0 <= k < |s.tasks| && k != i ==> t.tasks[k] == s.tasks[k]
  {
    BufferingPlan(s.tasks[i].call, seen);
    hide Serve, PassesBy, BuffersOnly;
  }

  lemma BothDecide(start: System, steps: seq<Step>, session: Session, first: Call, second: Call)
    requires |steps| > 5 && steps[4] == Decide(0, Failed) && steps[5] == Decide(1, Failed)
    requires At(RunUnguarded(start, steps[..4]), session, first, second, HasRead(session.buffer),
                HasRead(session.buffer))
    ensures At(RunUnguarded(start, steps[..6]), session, first, second,
               Planned(session.buffer, Failed), Planned(session.buffer, Failed))
  {
    hide NextUnguarded, RunUnguarded, Next, At;
    OneMoreUnguarded(start, steps, 4);
    OneMoreUnguarded(start, steps, 5);
    GuardedElsewhere(RunUnguarded(start, steps[..4]), steps[4]);
    DecidesFirst(RunUnguarded(start, steps[..4]), session, first, second);
    GuardedElsewhere(RunUnguarded(start, steps[..5]), steps[5]);
    DecidesSecond(RunUnguarded(start, steps[..5]), session, first, second);
  }

  lemma DecidesFirst(s: System, session: Session, first: Call, second: Call)
    requires At(s, session, first, second, HasRead(session.buffer), HasRead(session.buffer))
    ensures At(Next(s, Decide(0, Failed)), session, first, second, Planned(session.buffer, Failed),
               HasRead(session.buffer))
  {
    CutsNothing(Merge(session.buffer, Fresh(first)));
    hide Next, Merge, Fresh, Cuts;
    Decides(s, 0, session.buffer, Failed);
  }

  lemma DecidesSecond(s: System, session: Session, first: Call, second: Call)
    requires At(s, session, first, second, Planned(session.buffer, Failed), HasRead(session.buffer))
    ensures At(Next(s, Decide(1, Failed)), session, first, second, Planned(session.buffer, Failed),
               Planned(session.buffer, Failed))
  {
    CutsNothing(Merge(session.buffer, Fresh(second)));
    hide Next, Merge, Fresh, Cuts;
    Decides(s, 1, session.buffer, Failed);
  }

  lemma BothWrite(start: System, steps: seq<Step>, session: Session, first: Call, second: Call)
    requires |steps| > 7 && steps[6] == Write(0) && steps[7] == Write(1)
    requires BuffersOnly(first) && BuffersOnly(second) && !PassesBy(first) && !PassesBy(second)
    requires At(RunUnguarded(start, steps[..6]), session, first, second,
                Planned(session.buffer, Failed), Planned(session.buffer, Failed))
    ensures At(RunUnguarded(start, steps[..8]), session.(buffer := Merge(session.buffer, Fresh(second))), first, second,
               Settled(session.buffer, Failed), Settled(session.buffer, Failed))
  {
    hide NextUnguarded, RunUnguarded, Next, Merge, Fresh, PassesBy, BuffersOnly;
    OneMoreUnguarded(start, steps, 6);
    OneMoreUnguarded(start, steps, 7);
    GuardedElsewhere(RunUnguarded(start, steps[..6]), steps[6]);
    Writes(RunUnguarded(start, steps[..6]), 0, session.buffer);
    GuardedElsewhere(RunUnguarded(start, steps[..7]), steps[7]);
    Writes(RunUnguarded(start, steps[..7]), 1, session.buffer);
  }

  lemma BothFinish(start: System, steps: seq<Step>, session: Session, first: Call, second: Call, seen: seq<Message>)
    requires |steps| == 10 && steps[8] == Finish(0) && steps[9] == Finish(1)
    requires BuffersOnly(first) && BuffersOnly(second) && !PassesBy(first) && !PassesBy(second)
    requires At(RunUnguarded(start, steps[..8]), session, first, second, Settled(seen, Failed), Settled(seen, Failed))
    ensures var end := RunUnguarded(start, steps);
            end.session == session && |end.tasks| == 2 && HasReturned(end.tasks[0]) && HasReturned(end.tasks[1])
  {
    hide NextUnguarded, RunUnguarded, Next, Merge, Fresh, PassesBy, BuffersOnly;
    OneMoreUnguarded(start, steps, 8);
    OneMoreUnguarded(start, steps, 9);
    GuardedElsewhere(RunUnguarded(start, steps[..8]), steps[8]);
    Finishes(RunUnguarded(start, steps[..8]), 0, seen);
    GuardedElsewhere(RunUnguarded(start, steps[..9]), steps[9]);
    Finishes(RunUnguarded(start, steps[..9]), 1, seen);
    assert steps[..10] == steps;
  }

  lemma BufferingPlan(c: Call, seen: seq<Message>)
    requires BuffersOnly(c) && !PassesBy(c)
    ensures PlanSeen(c, seen, Failed) == Store(Merge(seen, Fresh(c)), Accumulated)
    ensures Serve(Session(seen, []), c, Failed).1.Returned?
  {
    hide Merge, Fresh;
  }

  // ---- A schedule that tears ----

  // A deferred call brings one message, a flush reads it, inserts the row, and is cancelled before it rewrites.
  function TearingSteps(bring: Call, flush: Call): seq<Step>
  {
    [Arrive(bring), Acquire(0), Read(0), Decide(0, Failed), Write(0), Finish(0),
     Arrive(flush), Acquire(1), Read(1), Decide(1, Detected([1], 0)), Insert(1)]
  }

  // For any message: after these steps, none of which tears anything, the cancellation leaves it in a row
  // and in the buffer.
  lemma TornSchedule(m: Message, bring: Call, flush: Call)
    requires bring.messages == [m] && Admitted(m, bring.mode) && BuffersOnly(bring)
    requires flush.messages == [] && flush.isFinal && flush.hasLlm && (flush.mode == Agent ==> Mappable(m))
    ensures var steps := TearingSteps(bring, flush);
            && NeverTorn(steps) && TearsExtraction(After(steps), Cancel(1))
            && TakesFrom(RowsWritten(After(steps).tasks[1]), After(steps).session.buffer)
            && After(steps + [Cancel(1)]).session == Session([m], [[m.id]])
            && !HeldOnce(After(steps + [Cancel(1)]).session)
  {
    hide *;
    var steps := TearingSteps(bring, flush);
    Brought(m, bring, flush);
    FlushInserts(m, bring, flush);
    AfterOneMore(steps, Cancel(1));
    CancelTears(After(steps), m, bring, flush);
    NoCancelNoTear(steps) by { NoCancels(bring, flush); }
    InBoth(m);
  }

  lemma {:induction false} NoCancelNoTear(steps: seq<Step>)
    requires forall k :: 0 <= k < |steps| ==> !steps[k].Cancel?
    ensures NeverTorn(steps)
  {
    hide After;
    if steps != [] {
      NoCancelNoTear(steps[..|steps| - 1]);
    }
  }

  lemma NoCancels(bring: Call, flush: Call)
    ensures forall k :: 0 <= k < |TearingSteps(bring, flush)| ==> !TearingSteps(bring, flush)[k].Cancel?
  {
  }

  lemma AfterAt(steps: seq<Step>, k: nat)
    requires k < |steps|
    ensures After(steps[..k + 1]) == Next(After(steps[..k]), steps[k])
  {
    assert steps[..k + 1][..k] == steps[..k];
  }

  lemma Brought(m: Message, bring: Call, flush: Call)
    requires bring.messages == [m] && Admitted(m, bring.mode) && BuffersOnly(bring)
    ensures var s := After(TearingSteps(bring, flush)[..6]);
            s.session == Session([m], []) && |s.tasks| == 1 && s.holder == None
  {
    var steps := TearingSteps(bring, flush);
    FreshAlone(m, bring);
    MergeAlone(m);
    BufferingPlan(bring, []);
    CutsNothing([m]);
    hide Merge, Fresh, FreshIds, PassesBy, PlanSeen, Serve, BuffersOnly, Cuts, After, Tidy, Ids;
    assert steps[..0] == [] && After([]) == System(Session([], []), [], None, []) by { NothingSoFar(); }
    AfterAt(steps, 0);
    AfterAt(steps, 1);
    AfterAt(steps, 2);
    assert After(steps[..3]) == System(Session([], []), [Task(bring, HasRead([]))], Some(0), []);
    BringsOne(steps, m, bring);
  }

  lemma BringsOne(steps: seq<Step>, m: Message, bring: Call)
    requires bring.messages == [m] && Admitted(m, bring.mode) && BuffersOnly(bring)
    requires |steps| > 5 && steps[3] == Decide(0, Failed) && steps[4] == Write(0) && steps[5] == Finish(0)
    requires After(steps[..3]) == System(Session([], []), [Task(bring, HasRead([]))], Some(0), [])
    ensures var s := After(steps[..6]);
            s.session == Session([m], []) && |s.tasks| == 1 && s.holder == None
  {
    FreshAlone(m, bring);
    MergeAlone(m);
    CutsNothing([m]);
    hide Merge, Fresh, FreshIds, PassesBy, Next, BuffersOnly, Cuts, After, Tidy, Ids, IdSet, Admitted;
    AfterAt(steps, 3);
    Decides(After(steps[..3]), 0, [], Failed);
    AfterAt(steps, 4);
    Writes(After(steps[..4]), 0, []);
    AfterAt(steps, 5);
    Finishes(After(steps[..5]), 0, []);
  }

  lemma NothingSoFar()
    ensures After([]) == System(Session([], []), [], None, [])
  {
  }

  lemma FlushPlanned(m: Message, flush: Call)
    requires flush.messages == [] && flush.isFinal && flush.hasLlm && (flush.mode == Agent ==> Mappable(m))
    ensures Fresh(flush) == [] && !PassesBy(flush) && Cuts(Detected([1], 0), Merge([m], Fresh(flush)))
    ensures PlanSeen(flush, [m], Detected([1], 0)) == Extract([[m.id]], [])
  {
    MergeAlone(m);
    SplitOne(m.id);
    hide Merge, Split, Ids;
  }

  lemma FlushInserts(m: Message, bring: Call, flush: Call)
    requires flush.messages == [] && flush.isFinal && flush.hasLlm && (flush.mode == Agent ==> Mappable(m))
    requires var s := After(TearingSteps(bring, flush)[..6]);
             s.session == Session([m], []) && |s.tasks| == 1 && s.holder == None
    ensures var s := After(TearingSteps(bring, flush));
            s.session == Session([m], [[m.id]]) && |s.tasks| == 2
            && s.tasks[1] == Task(flush, Inserted([m], Detected([1], 0)))
  {
    var steps := TearingSteps(bring, flush);
    FlushPlanned(m, flush);
    hide Merge, Fresh, PassesBy, PlanSeen, Serve, Cuts, After;
    FlushReads(steps, m, flush);
    FlushDecides(steps, m, flush);
    assert steps[..11] == steps;
  }

  lemma Inserts(s: System, i: nat, seen: seq<Message>, det: Detection)
    requires i < |s.tasks| && s.tasks[i].pc == Planned(seen, det) && PlanSeen(s.tasks[i].call, seen, det).Extract?
    ensures var cells := PlanSeen(s.tasks[i].call, seen, det).cells;
            Next(s, Insert(i)) ==
            Moved(s, i, Inserted(seen, det)).(session := s.session.(cells := s.session.cells + cells))
  {
    hide PlanSeen;
  }

  lemma FlushReads(steps: seq<Step>, m: Message, flush: Call)
    requires !PassesBy(flush) && |steps| > 8 && steps[6] == Arrive(flush) && steps[7] == Acquire(1)
             && steps[8] == Read(1)
    requires var s := After(steps[..6]);
             s.session == Session([m], []) && |s.tasks| == 1 && s.holder == None
    ensures var s := After(steps[..9]);
            s.session == Session([m], []) && |s.tasks| == 2 && s.tasks[1] == Task(flush, HasRead([m]))
  {
    hide Merge, Fresh, PassesBy, PlanSeen, Serve, Cuts, After;
    AfterAt(steps, 6);
    assert After(steps[..7]).tasks[1] == Task(flush, Waiting);
    AfterAt(steps, 7);
    assert After(steps[..8]).tasks[1] == Task(flush, Started);
    AfterAt(steps, 8);
  }

  lemma FlushDecides(steps: seq<Step>, m: Message, flush: Call)
    requires flush.messages == [] && flush.isFinal && flush.hasLlm && (flush.mode == Agent ==> Mappable(m))
    requires |steps| > 10 && steps[9] == Decide(1, Detected([1], 0)) && steps[10] == Insert(1)
    requires var s := After(steps[..9]);
             s.session == Session([m], []) && |s.tasks| == 2 && s.tasks[1] == Task(flush, HasRead([m]))
    ensures var s := After(steps[..11]);
            s.session == Session([m], [[m.id]]) && |s.tasks| == 2
            && s.tasks[1] == Task(flush, Inserted([m], Detected([1], 0)))
  {
    hide *;
    AfterAt(steps, 9);
    FlushDecided(After(steps[..9]), m, flush);
    AfterAt(steps, 10);
    FlushInserted(After(steps[..10]), m, flush);
  }

  lemma FlushDecided(s: System, m: Message, flush: Call)
    requires flush.messages == [] && flush.isFinal && flush.hasLlm && (flush.mode == Agent ==> Mappable(m))
    requires |s.tasks| == 2 && s.tasks[1] == Task(flush, HasRead([m]))
    ensures var t := Next(s, Decide(1, Detected([1], 0)));
            t.session == s.session && |t.tasks| == 2 && t.tasks[1] == Task(flush, Planned([m], Detected([1], 0)))
  {
    FlushPlanned(m, flush);
    hide Merge, Fresh, PassesBy, PlanSeen, Next, Cuts;
    Decides(s, 1, [m], Detected([1], 0));
  }

  lemma FlushInserted(s: System, m: Message, flush: Call)
    requires flush.messages == [] && flush.isFinal && flush.hasLlm && (flush.mode == Agent ==> Mappable(m))
    requires s.session == Session([m], []) && |s.tasks| == 2
             && s.tasks[1] == Task(flush, Planned([m], Detected([1], 0)))
    ensures var t := Next(s, Insert(1));
            t.session == Session([m], [[m.id]]) && |t.tasks| == 2
            && t.tasks[1] == Task(flush, Inserted([m], Detected([1], 0)))
  {
    FlushPlanned(m, flush);
    hide Merge, Fresh, PassesBy, PlanSeen, Next, Cuts;
    Inserts(s, 1, [m], Detected([1], 0));
  }

  lemma CancelTears(s: System, m: Message, bring: Call, flush: Call)
    requires flush.messages == [] && flush.isFinal && flush.hasLlm && (flush.mode == Agent ==> Mappable(m))
    requires s.session == Session([m], [[m.id]]) && |s.tasks| == 2
             && s.tasks[1] == Task(flush, Inserted([m], Detected([1], 0)))
    ensures TearsExtraction(s, Cancel(1)) && Next(s, Cancel(1)).session == s.session
    ensures TakesFrom(RowsWritten(s.tasks[1]), s.session.buffer)
  {
    FlushPlanned(m, flush);
    hide Merge, Fresh, PassesBy, PlanSeen, Serve, Cuts;
    assert Flatten([[m.id]]) == [m.id] + Flatten([]);
    assert m.id in Flatten([[m.id]]) && m.id in IdSet([m]);
  }
}
