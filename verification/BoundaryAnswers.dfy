// What a call answers and what it leaves, by the fields of the call: memory/src/everos/service/_boundary.py:96-221
// and memory/src/everos/service/memorize.py:250-277.
module BoundaryAnswers {
  import opened Prelude
  import opened MessageOrder
  import opened MessageMerge
  import opened BoundaryPlan
  import opened BoundaryRuns

  // A deferred call that is not final only ever buffers, whatever else it says, whether there is an LLM, what the
  // detector would answer and wherever an exception ends it.
  lemma DeferredOnlyBuffers(s: Session, c: Call, det: Detection, halt: Halt)
    requires c.deferred && !c.isFinal
    ensures var (after, reply) := Serve(s, c, det);
            && after.cells == s.cells && IdSet(after.buffer) == IdSet(s.buffer) + FreshIds(c)
            && reply == Returned(if Fresh(c) == [] then Skipped else Accumulated, [], |Fresh(c)|)
    ensures var (after, reply) := ServeHalted(s, c, det, halt);
            && after.cells == s.cells && (reply.Returned? ==> reply.status != Extracted)
            && IdSet(s.buffer) <= IdSet(after.buffer)
  {
    MergeIdSet(s.buffer, Fresh(c));
    FreshIdsAre(c);
    hide Merge, Fresh, FreshIds, IdSet, Tidy;
  }

  // The rows that are handed out have the sizes that the detector gave, and with the rest that stays buffered they are
  // the merged ids in order.
  ghost predicate HandsOut(rows: seq<seq<string>>, sizes: seq<nat>, left: seq<Message>, merged: seq<Message>)
  {
    && |rows| == |sizes| > 0 && (forall i :: 0 <= i < |rows| ==> |rows[i]| == sizes[i])
    && Flatten(rows) + Ids(left) == Ids(merged)
  }

  // For every session, call and detection: a call raises, and leaves everything as it was, exactly when rows cannot be
  // converted or the detector raised. Otherwise it counts its own messages, and the rows it hands out are those it adds
  // to the ledger. It is skipped exactly when it brings nothing or there is no LLM for what would be cut.
  lemma AnswersExactly(s: Session, c: Call, det: Detection)
    requires Cuts(det, Merge(s.buffer, Fresh(c)))
    ensures var merged, (after, reply) := Merge(s.buffer, Fresh(c)), Serve(s, c, det);
            if Detects(c, merged) && (!Convertible(c, merged) || det.Failed?) then reply.Raised? && after == s
            else
              && reply.Returned? && reply.count == |Fresh(c)| && after.cells == s.cells + reply.cells
              && (reply.status == Skipped
                  <==> (Fresh(c) == [] && !c.isFinal) || (!c.hasLlm && Detects(c.(hasLlm := true), merged)))
              && (reply.status == Extracted <==> Detects(c, merged) && det.cells != [])
              && (if reply.status == Extracted then HandsOut(reply.cells, det.cells, after.buffer, merged)
                  else reply.cells == [] && after.buffer == if Fresh(c) == [] && !c.isFinal then s.buffer else merged)
  {
    var merged := Merge(s.buffer, Fresh(c));
    if det.Detected? {
      CutRows(merged, det);
    }
    if merged == [] {
      EmptyMerge(s.buffer, Fresh(c));
    }
    PlanByFields(c, merged, det);
    ServeAnswers(s, c, det);
    hide *;
    assert s.cells + [] == s.cells;
  }

  lemma CutRows(merged: seq<Message>, det: Detection)
    requires det.Detected? && Cuts(det, merged)
    ensures Split(Ids(merged), det.cells).Some?
    ensures det.cells != [] ==>
            HandsOut(Split(Ids(merged), det.cells).value, det.cells, SliceTail(merged, det.tail), merged)
  {
    CutsMeans(det, merged);
    SplitExact(Ids(merged), det.cells);
    SplitSizes(Ids(merged), det.cells);
    PartitionExact(merged, det.cells, det.tail);
    hide Split, SliceTail, Ids;
  }

  // The plan of a call that does not pass by, in terms of its fields.
  lemma PlanByFields(c: Call, merged: seq<Message>, det: Detection)
    requires det.Detected? ==> Split(Ids(merged), det.cells).Some?
    requires merged == [] ==> Fresh(c) == []
    ensures PassesBy(c) <==> Fresh(c) == [] && !c.isFinal
    ensures PassesBy(c) ==> !Detects(c, merged) && !Detects(c.(hasLlm := true), merged)
    ensures var plan := PlanOf(c, merged, det);
            && (!PassesBy(c) ==> (plan.Raise? <==> Detects(c, merged) && (!Convertible(c, merged) || det.Failed?)))
            && (!PassesBy(c) ==>
                  (plan.Extract? <==> Detects(c, merged) && Convertible(c, merged) && det.Detected? && det.cells != []))
            && (plan.Extract? ==> plan == Extract(Split(Ids(merged), det.cells).value, SliceTail(merged, det.tail)))
            && (!PassesBy(c) ==> (plan.Keep? <==> merged == []))
            && (plan.Store? ==> plan.rows == merged && plan.status != Extracted)
            && (!PassesBy(c) && !plan.Store? ==> !Detects(c.(hasLlm := true), merged) || c.hasLlm)
            && (!PassesBy(c) && plan.Store? ==>
                  (plan.status == Skipped <==> !c.hasLlm && Detects(c.(hasLlm := true), merged)))
  {
    FieldsMean(c, merged);
    FieldsMean(c.(hasLlm := true), merged);
    hide Split, SliceTail, Ids, AllMappable, HasUser, Detects, Convertible, Fresh;
    SameFresh(c);
  }

  lemma SameFresh(c: Call)
    ensures Fresh(c.(hasLlm := true)) == Fresh(c)
  {
  }

  lemma ServeAnswers(s: Session, c: Call, det: Detection)
    ensures Serve(s, c, det) ==
            if PassesBy(c) then (s, Returned(Skipped, [], 0))
            else
              match PlanOf(c, Merge(s.buffer, Fresh(c)), det)
              case Keep => (s, Returned(Accumulated, [], 0))
              case Store(rows, status) => (s.(buffer := rows), Returned(status, [], |Fresh(c)|))
              case Extract(cells, rows) => (Session(rows, s.cells + cells), Returned(Extracted, cells, |Fresh(c)|))
              case Raise => (s, Raised)
  {
    hide Merge, Fresh, PlanOf, PassesBy;
  }

  lemma {:induction false} SplitSizes(ids: seq<string>, cells: seq<nat>)
    ensures Split(ids, cells).Some? ==> |Split(ids, cells).value| == |cells|
    ensures Split(ids, cells).Some? ==> forall i :: 0 <= i < |cells| ==> |Split(ids, cells).value[i]| == cells[i]
    decreases |cells|
  {
    if cells != [] && cells[0] <= |ids| {
      SplitSizes(ids[cells[0]..], cells[1..]);
    }
  }

  // An exception that a call gets to ends it, and what it has written by then stays; a call that returns did what it
  // does without one, and all its messages are held.
  lemma HaltedExactly(s: Session, c: Call, det: Detection, halt: Halt)
    requires Cuts(det, Merge(s.buffer, Fresh(c)))
    ensures var (whole, answer), (after, reply) := Serve(s, c, det), ServeHalted(s, c, det, halt);
            if answer.Raised? || !Reaches(c, Merge(s.buffer, Fresh(c)), answer.status, halt) then
              after == whole && reply == answer
            else
              && reply.Raised?
              && match halt
                 case AtReplace => after == s.(cells := whole.cells)
                 case AtTouch => after == whole
                 case InPipelines => after == whole
                 case _ => after == s
    ensures ServeHalted(s, c, det, halt).1.Returned? ==>
              var after := ServeHalted(s, c, det, halt).0;
              FreshIds(c) + IdSet(s.buffer) <= IdSet(after.buffer) + ExtractedIds(after)
  {
    hide *;
    HaltedByReply(s, c, det, halt);
    if Serve(s, c, det).1.Returned? {
      AnswerCovers(s, c, det);
    }
  }

  lemma HaltedByReply(s: Session, c: Call, det: Detection, halt: Halt)
    requires Cuts(det, Merge(s.buffer, Fresh(c)))
    ensures var (whole, answer), (after, reply) := Serve(s, c, det), ServeHalted(s, c, det, halt);
            if answer.Raised? || !Reaches(c, Merge(s.buffer, Fresh(c)), answer.status, halt) then
              after == whole && reply == answer
            else
              && reply.Raised?
              && match halt
                 case AtReplace => after == s.(cells := whole.cells)
                 case AtTouch => after == whole
                 case InPipelines => after == whole
                 case _ => after == s
  {
    var merged := Merge(s.buffer, Fresh(c));
    if merged == [] {
      EmptyMerge(s.buffer, Fresh(c));
    }
    if det.Detected? {
      CutRows(merged, det);
    }
    PlanByFields(c, merged, det);
    ServeAnswers(s, c, det);
    HaltedPlan(s, c, det, halt);
    ReachesIs(c, merged);
    hide *;
    var plan := PlanOf(c, merged, det);
    if PassesBy(c) {
    } else if plan.Extract? {
    } else if plan.Store? {
    }
  }

  lemma ReachesIs(c: Call, merged: seq<Message>)
    ensures forall status, halt ::
              Reaches(c, merged, status, halt) <==>
              !PassesBy(c) && !halt.Nowhere? && (halt.AtInsert? || halt.InPipelines? ==> status == Extracted)
              && (halt.AtReplace? ==> merged != []) && (halt.AtTouch? ==> merged != [] && status == Accumulated)
  {
    hide Fresh;
  }

  lemma HaltedPlan(s: Session, c: Call, det: Detection, halt: Halt)
    ensures var plan := PlanOf(c, Merge(s.buffer, Fresh(c)), det);
            var whole, halted := Serve(s, c, det), ServeHalted(s, c, det, halt);
            if PassesBy(c) || halt.Nowhere? then halted == whole
            else if halt.AtRead? then halted == (s, Raised)
            else
              match plan
              case Keep => halted == whole
              case Raise => halted == whole
              case Store(_, status) =>
                if halt.AtReplace? then halted == (s, Raised)
                else if halt.AtTouch? && status == Accumulated then halted == (whole.0, Raised)
                else status != Extracted ==> halted == whole
              case Extract(rows, _) =>
                if halt.AtInsert? then halted == (s, Raised)
                else if halt.AtReplace? then halted == (s.(cells := s.cells + rows), Raised)
                else halted == if halt.InPipelines? then (whole.0, Raised) else whole
  {
    hide Merge, Fresh, PlanOf, PassesBy;
  }

  // What a call that returns has seen is held.
  lemma AnswerCovers(s: Session, c: Call, det: Detection)
    requires Cuts(det, Merge(s.buffer, Fresh(c))) && Serve(s, c, det).1.Returned?
    ensures var after := Serve(s, c, det).0;
            FreshIds(c) + IdSet(s.buffer) <= IdSet(after.buffer) + ExtractedIds(after)
  {
    hide *;
    var merged := Merge(s.buffer, Fresh(c));
    var (after, reply) := Serve(s, c, det);
    AnswersExactly(s, c, det);
    MergeIdSet(s.buffer, Fresh(c));
    FreshIdsAre(c);
    if reply.status == Extracted {
      HandedOut(reply.cells, det.cells, after.buffer, merged, s.cells, after.cells);
      assert after == Session(after.buffer, after.cells);
    }
  }

  lemma HandedOut(rows: seq<seq<string>>, sizes: seq<nat>, left: seq<Message>, merged: seq<Message>,
                  before: seq<seq<string>>, cells: seq<seq<string>>)
    requires HandsOut(rows, sizes, left, merged) && cells == before + rows
    ensures IdSet(merged) <= IdSet(left) + ExtractedIds(Session(left, cells))
  {
    FlattenConcat(before, rows);
    forall id | id in IdSet(merged)
      ensures id in IdSet(left) + ExtractedIds(Session(left, cells))
    {
      IdsMembers(merged, id);
      IdsMembers(left, id);
      assert id in Flatten(rows) + Ids(left);
    }
  }

  // Whether a call that would answer with this status gets to the place of the exception.
  ghost predicate Reaches(c: Call, merged: seq<Message>, status: Status, halt: Halt)
  {
    (Fresh(c) != [] || c.isFinal) &&
    match halt
    case Nowhere => false
    case AtRead => true
    case AtInsert => status == Extracted
    case AtReplace => merged != []
    case AtTouch => merged != [] && status == Accumulated
    case InPipelines => status == Extracted
  }
}
