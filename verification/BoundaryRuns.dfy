// What runs of calls on one session keep: memory/src/everos/service/_boundary.py:96-221.
module BoundaryRuns {
  import opened Prelude
  import opened MessageOrder
  import opened MessageMerge
  import opened BoundaryPlan

  // ---- Where message ids are ----

  ghost function FreshIds(c: Call): set<string> { IdSet(Fresh(c)) }

  ghost function ExtractedIds(s: Session): set<string> { set id | id in Flatten(s.cells) }

  // Every place that holds an id, buffer and ledger together.
  ghost function Places(s: Session): multiset<string> { multiset(Ids(s.buffer)) + multiset(Flatten(s.cells)) }

  // A buffer as the stage leaves it: in key order, one message per id.
  ghost predicate Tidy(ms: seq<Message>) { Sorted(ms) && UniqueIds(ms) }

  // Each accepted id is in exactly one place and no other id is anywhere.
  ghost predicate ExactlyOnce(s: Session, accepted: set<string>)
  {
    Tidy(s.buffer) && Places(s) == multiset(accepted)
  }

  // Whatever was accepted, no message is held twice and nothing else is held.
  ghost predicate HeldOnce(s: Session) { exists held :: ExactlyOnce(s, held) }

  // The same, in words: an accepted id is either buffered or in one ledger row, never both.
  lemma ExactlyOnceMeans(s: Session, accepted: set<string>, id: string)
    requires ExactlyOnce(s, accepted)
    ensures id in accepted <==> id in IdSet(s.buffer) || id in ExtractedIds(s)
    ensures !(id in IdSet(s.buffer) && id in ExtractedIds(s))
    ensures multiset(Flatten(s.cells))[id] <= 1 && multiset(Ids(s.buffer))[id] <= 1
  {
    var buffered, extracted := multiset(Ids(s.buffer)), multiset(Flatten(s.cells));
    assert Places(s)[id] == buffered[id] + extracted[id];
    assert multiset(accepted)[id] == if id in accepted then 1 else 0;
    assert id in IdSet(s.buffer) <==> buffered[id] > 0 by { IdsMembers(s.buffer, id); }
    assert id in ExtractedIds(s) <==> extracted[id] > 0;
  }

  lemma IdsMembers(ms: seq<Message>, id: string)
    ensures id in IdSet(ms) <==> id in Ids(ms)
  {
    if id in Ids(ms) {
      var k :| 0 <= k < |ms| && Ids(ms)[k] == id;
      assert ms[k] in ms;
    }
    if id in IdSet(ms) {
      var m :| m in ms && m.id == id;
      var k :| 0 <= k < |ms| && ms[k] == m;
      assert Ids(ms)[k] == id;
    }
  }

  lemma {:induction false} IdsAreSet(ms: seq<Message>)
    requires UniqueIds(ms)
    ensures multiset(Ids(ms)) == multiset(IdSet(ms))
  {
    if ms != [] {
      var n := |ms| - 1;
      var m := ms[n];
      IdsAreSet(ms[..n]);
      assert ms == ms[..n] + [m];
      assert Ids(ms) == Ids(ms[..n]) + [m.id];
      assert IdSet(ms) == IdSet(ms[..n]) + {m.id};
      assert m.id !in IdSet(ms[..n]);
    }
  }

  lemma TidyIds(ms: seq<Message>)
    requires Tidy(ms)
    ensures multiset(Ids(ms)) == multiset(IdSet(ms))
  {
    IdsAreSet(ms);
  }

  // ---- One call ----

  // The outcomes of a call, plan by plan.
  lemma ServeIs(s: Session, c: Call, det: Detection)
    ensures var merged, (after, reply) := Merge(s.buffer, Fresh(c)), Serve(s, c, det);
            if PassesBy(c) then Fresh(c) == [] && after == s && reply.Returned?
            else
              match PlanOf(c, merged, det)
              case Keep => merged == [] && after == s && reply.Returned?
              case Store(rows, status) => rows == merged && after == s.(buffer := merged) && reply.Returned?
              case Extract(cells, rows) =>
                && det.Detected? && Split(Ids(merged), det.cells) == Some(cells) && rows == SliceTail(merged, det.tail)
                && after == Session(rows, s.cells + cells) && reply.Returned?
              case Raise => after == s && reply.Raised?
  {
    hide Merge, Lists, Fresh, Split, SliceTail, Ids, AllMappable, HasUser;
  }

  lemma MergeIdSet(buffered: seq<Message>, arrived: seq<Message>)
    ensures var s := Merge(buffered, arrived);
            Tidy(s) && IdSet(s) == IdSet(buffered) + IdSet(arrived)
  {
    MergeFacts(buffered, arrived);
  }

  // On every path that returns, buffer and ledger together hold the old ledger, and the old buffer and the
  // new messages once per id.
  lemma ServePlaces(s: Session, c: Call, det: Detection)
    requires Tidy(s.buffer) && Cuts(det, Merge(s.buffer, Fresh(c))) && Serve(s, c, det).1.Returned?
    ensures var after := Serve(s, c, det).0;
            && Tidy(after.buffer)
            && Places(after) == multiset(IdSet(s.buffer) + FreshIds(c)) + multiset(Flatten(s.cells))
  {
    hide *;
    var merged := Merge(s.buffer, Fresh(c));
    ServeIs(s, c, det);
    MergeIdSet(s.buffer, Fresh(c));
    TidyIds(s.buffer);
    TidyIds(merged);
    FreshIdsAre(c);
    if !PassesBy(c) {
      match PlanOf(c, merged, det)
      case Keep => EmptyMerge(s.buffer, Fresh(c));
      case Store(_, _) =>
      case Extract(cells, _) => ExtractPlaces(s, merged, det, cells);
      case Raise =>
    }
    PlacesAre(s);
    PlacesAre(Serve(s, c, det).0);
  }

  lemma FreshIdsAre(c: Call)
    ensures FreshIds(c) == IdSet(Fresh(c)) && (Fresh(c) == [] ==> FreshIds(c) == {})
  {
  }

  lemma PlacesAre(s: Session)
    ensures Places(s) == multiset(Ids(s.buffer)) + multiset(Flatten(s.cells))
  {
  }

  lemma ExtractPlaces(s: Session, merged: seq<Message>, det: Detection, cells: seq<seq<string>>)
    requires Tidy(merged) && det.Detected? && Cuts(det, merged) && Split(Ids(merged), det.cells) == Some(cells)
    ensures Tidy(SliceTail(merged, det.tail))
    ensures multiset(Ids(SliceTail(merged, det.tail))) + multiset(Flatten(s.cells + cells)) ==
            multiset(Ids(merged)) + multiset(Flatten(s.cells))
  {
    CutPlaces(merged, det.cells, det.tail);
    FlattenConcat(s.cells, cells);
    hide *;
    var a, b := Flatten(s.cells), Flatten(cells);
    assert multiset(a + b) == multiset(a) + multiset(b);
  }

  lemma EmptyMerge(buffered: seq<Message>, arrived: seq<Message>)
    requires Merge(buffered, arrived) == []
    ensures buffered == [] && arrived == []
  {
    MergeFacts(buffered, arrived);
    hide Merge;
    assert IdSet([]) == {};
    assert buffered != [] ==> buffered[0].id in IdSet(buffered);
    assert arrived != [] ==> arrived[0].id in IdSet(arrived);
  }

  lemma CutPlaces(merged: seq<Message>, cells: seq<nat>, tail: nat)
    requires Tidy(merged) && Sum(cells) + tail == |merged|
    ensures Split(Ids(merged), cells).Some? && Tidy(SliceTail(merged, tail))
    ensures multiset(Flatten(Split(Ids(merged), cells).value)) + multiset(Ids(SliceTail(merged, tail))) ==
            multiset(Ids(merged))
  {
    PartitionExact(merged, cells, tail);
    var a, b := Flatten(Split(Ids(merged), cells).value), Ids(SliceTail(merged, tail));
    assert multiset(a + b) == multiset(a) + multiset(b);
  }

  // A call that returns keeps "exactly once", counting its own messages, exactly when none of them was
  // extracted before; a call that raises changes nothing.
  lemma ServeConserves(s: Session, c: Call, det: Detection, accepted: set<string>)
    requires ExactlyOnce(s, accepted) && Cuts(det, Merge(s.buffer, Fresh(c)))
    ensures Serve(s, c, det).1.Raised? ==> Serve(s, c, det).0 == s
    ensures Serve(s, c, det).1.Returned? ==>
              (ExactlyOnce(Serve(s, c, det).0, accepted + FreshIds(c)) <==> FreshIds(c) !! ExtractedIds(s))
  {
    hide *;
    ServeIs(s, c, det);
    if Serve(s, c, det).1.Returned? {
      ReturnedConserves(s, c, det, accepted);
    }
  }

  lemma ReturnedConserves(s: Session, c: Call, det: Detection, accepted: set<string>)
    requires ExactlyOnce(s, accepted) && Cuts(det, Merge(s.buffer, Fresh(c))) && Serve(s, c, det).1.Returned?
    ensures ExactlyOnce(Serve(s, c, det).0, accepted + FreshIds(c)) <==> FreshIds(c) !! ExtractedIds(s)
  {
    ServePlaces(s, c, det);
    IdsAreSet(s.buffer);
    hide Serve, Tidy, FreshIds, IdSet, Merge, Fresh, Ids;
    var extracted := multiset(Flatten(s.cells));
    SetPlaces(IdSet(s.buffer), FreshIds(c), extracted, accepted);
    assert forall id :: id in ExtractedIds(s) <==> id in extracted;
  }

  // Counting: adding ids to a duplicate-free split of a set keeps it duplicate-free exactly when
  // none of them is on the other side.
  lemma SetPlaces(buffered: set<string>, arrived: set<string>, extracted: multiset<string>, accepted: set<string>)
    requires multiset(buffered) + extracted == multiset(accepted)
    ensures multiset(buffered + arrived) + extracted == multiset(accepted + arrived)
            <==> (forall id :: id in arrived ==> id !in extracted)
  {
    forall id
      ensures multiset(accepted)[id] == multiset(buffered)[id] + extracted[id]
    {
      assert (multiset(buffered) + extracted)[id] == multiset(buffered)[id] + extracted[id];
    }
    if multiset(buffered + arrived) + extracted == multiset(accepted + arrived) {
      forall id | id in arrived
        ensures id !in extracted
      {
        assert (multiset(buffered + arrived) + extracted)[id] == multiset(accepted + arrived)[id] == 1;
      }
    }
    if forall id :: id in arrived ==> id !in extracted {
      forall id
        ensures (multiset(buffered + arrived) + extracted)[id] == multiset(accepted + arrived)[id]
      {
        assert multiset(accepted)[id] == multiset(buffered)[id] + extracted[id];
      }
    }
  }

  // ---- Runs ----

  datatype Entry = Entry(call: Call, det: Detection)

  ghost function StateAfter(entries: seq<Entry>): Session
  {
    if entries == [] then Session([], [])
    else
      var e := entries[|entries| - 1];
      Serve(StateAfter(entries[..|entries| - 1]), e.call, e.det).0
  }

  // The ids of all calls that returned normally, after the mode filter.
  ghost function Accepted(entries: seq<Entry>): set<string>
  {
    if entries == [] then {}
    else
      var before, e := entries[..|entries| - 1], entries[|entries| - 1];
      if Serve(StateAfter(before), e.call, e.det).1.Raised? then Accepted(before)
      else Accepted(before) + FreshIds(e.call)
  }

  // The detector cuts what it is given, and a call that returns sends nothing that was extracted before.
  ghost predicate Orderly(entries: seq<Entry>)
  {
    entries != [] ==>
      var before, e := entries[..|entries| - 1], entries[|entries| - 1];
      var s := StateAfter(before);
      && Orderly(before)
      && Cuts(e.det, Merge(s.buffer, Fresh(e.call)))
      && (Serve(s, e.call, e.det).1.Returned? ==> FreshIds(e.call) !! ExtractedIds(s))
  }

  // Over every such run each accepted message is in exactly one memcell or in the buffer.
  lemma {:induction false} RunsConserve(entries: seq<Entry>)
    requires Orderly(entries)
    ensures ExactlyOnce(StateAfter(entries), Accepted(entries))
  {
    hide Serve, Tidy, Merge, FreshIds, ExtractedIds, Cuts;
    if entries == [] {
      NothingYet();
    } else {
      var before, e := entries[..|entries| - 1], entries[|entries| - 1];
      RunsConserve(before);
      ServeConserves(StateAfter(before), e.call, e.det, Accepted(before));
    }
  }

  lemma NothingYet()
    ensures ExactlyOnce(Session([], []), {})
  {
    assert Ids([]) == [];
  }

  // A flush whose detector leaves no tail and at least one cell empties the buffer.
  lemma FlushEmpties(s: Session, c: Call, det: Detection)
    requires c.isFinal && det.Detected? && det.cells != [] && det.tail == 0 && Cuts(det, Merge(s.buffer, Fresh(c)))
    requires c.hasLlm && (c.mode == Agent ==> AllMappable(Merge(s.buffer, Fresh(c))))
    ensures Serve(s, c, det).0.buffer == [] && Serve(s, c, det).1.Returned?
    ensures forall m :: m in s.buffer && UniqueIds(s.buffer) ==> m.id in ExtractedIds(Serve(s, c, det).0)
  {
    hide *;
    var merged := Merge(s.buffer, Fresh(c));
    ServeIs(s, c, det);
    FlushPlan(c, merged, det);
    if merged == [] {
      EmptyMerge(s.buffer, Fresh(c));
    } else {
      SplitExact(Ids(merged), det.cells);
      WholeSplit(s, Fresh(c), det.cells);
    }
  }

  lemma FlushPlan(c: Call, merged: seq<Message>, det: Detection)
    requires c.isFinal && det.Detected? && det.cells != [] && det.tail == 0 && c.hasLlm
             && (c.mode == Agent ==> AllMappable(merged))
    requires Cuts(det, merged)
    ensures !PassesBy(c) && SliceTail(merged, 0) == [] && Sum(det.cells) == |Ids(merged)|
    ensures if merged == [] then PlanOf(c, merged, det) == Keep else PlanOf(c, merged, det).Extract?
  {
    SplitExact(Ids(merged), det.cells);
    hide Split, Ids, AllMappable;
  }

  lemma WholeSplit(s: Session, arrived: seq<Message>, cells: seq<nat>)
    requires Sum(cells) == |Ids(Merge(s.buffer, arrived))|
    ensures Split(Ids(Merge(s.buffer, arrived)), cells).Some?
    ensures var split := Split(Ids(Merge(s.buffer, arrived)), cells).value;
            forall m :: m in s.buffer && UniqueIds(s.buffer) ==> m.id in ExtractedIds(Session([], s.cells + split))
  {
    var merged := Merge(s.buffer, arrived);
    SplitExact(Ids(merged), cells);
    MergeFacts(s.buffer, arrived);
    hide Merge, Lists, WithDefaults, ByIdLast, Split, UniqueIds, Sorted;
    var split := Split(Ids(merged), cells).value;
    assert Flatten(split) == Ids(merged);
    FlattenConcat(s.cells, split);
    forall m | m in s.buffer && UniqueIds(s.buffer)
      ensures m.id in ExtractedIds(Session([], s.cells + split))
    {
      assert m in merged && m.id in IdSet(merged);
      IdsMembers(merged, m.id);
    }
  }

  // ---- Deferring ----

  ghost function AfterDeferred(s: Session, calls: seq<Call>): Session
    decreases |calls|
  {
    if calls == [] then s else AfterDeferred(Serve(s, calls[0], Failed).0, calls[1..])
  }

  function AllFresh(calls: seq<Call>): seq<Message>
  {
    if calls == [] then [] else Fresh(calls[0]) + AllFresh(calls[1..])
  }

  lemma {:induction false} DeferredMerge(s: Session, calls: seq<Call>)
    requires Tidy(s.buffer) && forall i :: 0 <= i < |calls| ==> BuffersOnly(calls[i])
    ensures AfterDeferred(s, calls) == s.(buffer := Merge(s.buffer, AllFresh(calls)))
    decreases |calls|
  {
    hide Fresh, Tidy, Serve, Merge, Lists;
    MergeNothing(s.buffer);
    if calls != [] {
      var next := Serve(s, calls[0], Failed).0;
      ServeDeferred(s, calls[0]);
      MergeIdSet(s.buffer, Fresh(calls[0]));
      DeferredMerge(next, calls[1..]);
      MergeTwice(s.buffer, Fresh(calls[0]), AllFresh(calls[1..]));
    }
  }

  lemma ServeDeferred(s: Session, c: Call)
    requires Tidy(s.buffer) && BuffersOnly(c)
    ensures Serve(s, c, Failed).0 == s.(buffer := Merge(s.buffer, Fresh(c)))
  {
    MergeNothing(s.buffer);
    hide Merge, Lists, Fresh, Tidy;
  }

  lemma MergeNothing(buffered: seq<Message>)
    requires Tidy(buffered)
    ensures Merge(buffered, []) == buffered
  {
    ByIdUnique(buffered);
    ListingUnique(buffered, Merge(buffered, []), ByIdLast(buffered));
  }

  // Deferring any number of calls and then flushing is one flush that brings all their messages, unless the
  // flush raises: then what was deferred is still buffered, and what the one flush brought is not.
  lemma DeferThenFlush(s: Session, calls: seq<Call>, flush: Call, whole: Call, det: Detection)
    requires Tidy(s.buffer) && forall i :: 0 <= i < |calls| ==> BuffersOnly(calls[i])
    requires flush.isFinal && Fresh(flush) == [] && Fresh(whole) == AllFresh(calls)
    requires whole == flush.(messages := whole.messages)
    ensures Serve(AfterDeferred(s, calls), flush, det).0 ==
            if PlanOf(whole, Merge(s.buffer, Fresh(whole)), det).Raise? then
              s.(buffer := Merge(s.buffer, AllFresh(calls)))
            else Serve(s, whole, det).0
  {
    hide *;
    var deferred := Merge(s.buffer, AllFresh(calls));
    DeferredMerge(s, calls);
    MergeIdSet(s.buffer, AllFresh(calls));
    MergeNothing(deferred);
    ServeFinal(AfterDeferred(s, calls), flush, det);
    ServeFinal(s, whole, det);
    SamePlan(flush, whole, deferred, det);
    if deferred == [] {
      EmptyMerge(s.buffer, AllFresh(calls));
    }
  }

  // What a final call leaves, as a function of the merged list.
  lemma ServeFinal(s: Session, c: Call, det: Detection)
    requires c.isFinal
    ensures var merged := Merge(s.buffer, Fresh(c));
            Serve(s, c, det).0 ==
            match PlanOf(c, merged, det)
            case Keep => s
            case Store(rows, status) => s.(buffer := merged)
            case Extract(cells, rows) => Session(rows, s.cells + cells)
            case Raise => s
    ensures PlanOf(c, Merge(s.buffer, Fresh(c)), det).Keep? ==> Merge(s.buffer, Fresh(c)) == []
  {
    hide Merge, Lists, Fresh, Split, SliceTail, Ids, AllMappable, HasUser;
  }

  lemma SamePlan(a: Call, b: Call, merged: seq<Message>, det: Detection)
    requires a == b.(messages := a.messages)
    ensures PlanOf(a, merged, det) == PlanOf(b, merged, det)
  {
    hide Split, SliceTail, Ids, AllMappable, HasUser;
  }

  // ---- When a call extracts ----

  // A call gets as far as the detector: it is not deferred, brings something or is final, there is something to cut
  // with a message of the user in it unless it is final, and there is an LLM.
  ghost predicate Detects(c: Call, merged: seq<Message>)
  {
    && (!c.deferred || c.isFinal) && (Fresh(c) != [] || c.isFinal) && merged != []
    && (c.isFinal || exists m :: m in merged && m.role == User) && c.hasLlm
  }

  // In agent mode tool results need the id of their call.
  ghost predicate Convertible(c: Call, merged: seq<Message>)
  {
    c.mode == Agent ==> forall m :: m in merged && m.role == Tool ==> m.hasToolCallId
  }

  // A call answers that it extracted exactly in these cases.
  lemma ExtractsExactly(s: Session, c: Call, det: Detection)
    requires Cuts(det, Merge(s.buffer, Fresh(c)))
    ensures var merged, reply := Merge(s.buffer, Fresh(c)), Serve(s, c, det).1;
            (reply.Returned? && reply.status == Extracted) <==>
            Detects(c, merged) && Convertible(c, merged) && det.Detected? && det.cells != []
  {
    var merged := Merge(s.buffer, Fresh(c));
    if det.Detected? {
      CutsMeans(det, merged);
      SplitExact(Ids(merged), det.cells);
    }
    PlanExact(c, merged, det);
    FieldsMean(c, merged);
    hide Merge, Fresh, PlanOf, Cuts, BuffersOnly, PassesBy, HasUser, AllMappable, Detects, Convertible;
  }

  lemma FieldsMean(c: Call, merged: seq<Message>)
    ensures Detects(c, merged) <==>
            !PassesBy(c) && !BuffersOnly(c) && merged != [] && (c.isFinal || HasUser(merged)) && c.hasLlm
    ensures Convertible(c, merged) <==> c.mode == Chat || AllMappable(merged)
  {
  }

  lemma CutsMeans(det: Detection, merged: seq<Message>)
    requires Cuts(det, merged) && det.Detected?
    ensures Sum(det.cells) + det.tail == |merged| == |Ids(merged)|
  {
  }

  lemma PlanExact(c: Call, merged: seq<Message>, det: Detection)
    requires det.Detected? ==> Split(Ids(merged), det.cells).Some?
    ensures PlanOf(c, merged, det).Extract? <==>
            && !BuffersOnly(c) && merged != [] && (c.isFinal || HasUser(merged)) && c.hasLlm
            && (c.mode == Agent ==> AllMappable(merged)) && det.Detected? && det.cells != []
    ensures PlanOf(c, merged, det).Store? ==> PlanOf(c, merged, det).status != Extracted
    ensures PlanOf(c, merged, det).Extract? ==> PlanOf(c, merged, det).cells == Split(Ids(merged), det.cells).value
  {
    hide Split, SliceTail, Ids, AllMappable, HasUser;
  }

  // An agent flush that is given cells extracts exactly when every row, buffered or new, can be mapped, and otherwise
  // raises and changes nothing.
  lemma FlushExtractsExactly(s: Session, c: Call, det: Detection)
    requires c.isFinal && c.mode == Agent && c.hasLlm && det.Detected? && det.cells != []
    requires Merge(s.buffer, Fresh(c)) != [] && Cuts(det, Merge(s.buffer, Fresh(c)))
    ensures var (after, reply) := Serve(s, c, det);
            if forall m :: m in Merge(s.buffer, Fresh(c)) && m.role == Tool ==> m.hasToolCallId then
              reply.Returned? && reply.status == Extracted && after.cells != s.cells
            else reply.Raised? && after == s
  {
    var merged := Merge(s.buffer, Fresh(c));
    CutsMeans(det, merged);
    SplitExact(Ids(merged), det.cells);
    FlushPlanExact(c, merged, det);
    ServeIs(s, c, det);
    FieldsMean(c, merged);
    assert Convertible(c, merged) <==> forall m :: m in merged && m.role == Tool ==> m.hasToolCallId;
    hide *;
    if AllMappable(merged) {
      assert |s.cells + Split(Ids(merged), det.cells).value| > |s.cells|;
    }
  }

  lemma FlushPlanExact(c: Call, merged: seq<Message>, det: Detection)
    requires c.isFinal && c.mode == Agent && c.hasLlm && det.Detected? && det.cells != [] && merged != []
    requires Split(Ids(merged), det.cells).Some?
    ensures var plan := PlanOf(c, merged, det);
            if AllMappable(merged) then plan.Extract? && plan.cells == Split(Ids(merged), det.cells).value
            else plan.Raise?
  {
    hide Split, SliceTail, Ids, AllMappable, HasUser;
  }

  // ---- A row that cannot be mapped ----

  // In agent mode, as long as a row without an algorithm counterpart is buffered, no call of any kind
  // extracts anything, and the row stays.
  lemma OrphanBlocks(s: Session, c: Call, det: Detection, m: Message)
    requires Tidy(s.buffer) && m in s.buffer && !Mappable(m) && c.mode == Agent
    ensures var after := Serve(s, c, det).0;
            after.cells == s.cells && m in after.buffer && Tidy(after.buffer)
  {
    hide *;
    var merged := Merge(s.buffer, Fresh(c));
    ServeIs(s, c, det);
    MergeIdSet(s.buffer, Fresh(c));
    OrphanMerged(s.buffer, Fresh(c), m);
    OrphanPlan(c, merged, det);
  }

  lemma OrphanMerged(buffered: seq<Message>, arrived: seq<Message>, m: Message)
    requires Tidy(buffered) && m in buffered && !Mappable(m)
    ensures m in Merge(buffered, arrived) && !AllMappable(Merge(buffered, arrived))
  {
    MergeFacts(buffered, arrived);
  }

  lemma OrphanPlan(c: Call, merged: seq<Message>, det: Detection)
    requires c.mode == Agent && !AllMappable(merged)
    ensures !PlanOf(c, merged, det).Extract?
  {
    hide Split, SliceTail, Ids, AllMappable, HasUser;
  }

  lemma {:induction false} OrphanBlocksForEver(s: Session, entries: seq<Entry>, m: Message) returns (after: Session)
    requires Tidy(s.buffer) && m in s.buffer && !Mappable(m)
    requires forall i :: 0 <= i < |entries| ==> entries[i].call.mode == Agent
    ensures after == ServeAll(s, entries) && after.cells == s.cells && m in after.buffer
    decreases |entries|
  {
    hide Serve, Tidy;
    after := s;
    if entries != [] {
      OrphanBlocks(s, entries[0].call, entries[0].det, m);
      after := OrphanBlocksForEver(Serve(s, entries[0].call, entries[0].det).0, entries[1..], m);
    }
  }

  ghost function ServeAll(s: Session, entries: seq<Entry>): Session
    decreases |entries|
  {
    if entries == [] then s else ServeAll(Serve(s, entries[0].call, entries[0].det).0, entries[1..])
  }

  // It starts from an empty session with one deferred call: in no later agent call is anything ever extracted.
  lemma {:induction false} OrphanFromEmpty(m: Message, deferred: Call, entries: seq<Entry>)
    requires m.role == Tool && !m.hasToolCallId
    requires deferred.messages == [m] && deferred.mode == Agent && BuffersOnly(deferred)
    requires forall i :: 0 <= i < |entries| ==> entries[i].call.mode == Agent
    ensures ServeAll(Session([], []), [Entry(deferred, Failed)] + entries).cells == []
  {
    BuffersAlone(m, deferred);
    FirstServed(Session([], []), Entry(deferred, Failed), entries);
    OrphanAlone(m, entries);
    hide *;
  }

  lemma FirstServed(s: Session, e: Entry, entries: seq<Entry>)
    ensures ServeAll(s, [e] + entries) == ServeAll(Serve(s, e.call, e.det).0, entries)
  {
    hide Serve;
    assert ([e] + entries)[1..] == entries;
  }

  lemma {:induction false} OrphanAlone(m: Message, entries: seq<Entry>)
    requires m.role == Tool && !m.hasToolCallId
    requires forall i :: 0 <= i < |entries| ==> entries[i].call.mode == Agent
    ensures ServeAll(Session([m], []), entries).cells == []
  {
    MergeAlone(m);
    var s := Session([m], []);
    hide *;
    var after := OrphanBlocksForEver(s, entries, m) by {
      NotMappable(m);
    }
    assert after == ServeAll(s, entries);
  }

  lemma NotMappable(m: Message)
    requires m.role == Tool && !m.hasToolCallId
    ensures !Mappable(m)
  {
  }

  lemma BuffersAlone(m: Message, c: Call)
    requires c.messages == [m] && Admitted(m, c.mode) && BuffersOnly(c)
    ensures Serve(Session([], []), c, Failed).0 == Session([m], [])
  {
    FreshAlone(m, c);
    MergeAlone(m);
    hide Merge, Fresh;
  }

  lemma FreshAlone(m: Message, c: Call)
    requires c.messages == [m] && Admitted(m, c.mode)
    ensures Fresh(c) == [m] && FreshIds(c) == {m.id} && !PassesBy(c)
  {
    assert [m][1..] == [];
    assert FilterForMode([m], c.mode) == [m] + FilterForMode([], c.mode) == [m];
    assert IdSet([m]) == {m.id};
  }

  lemma MergeAlone(m: Message)
    ensures Merge([], [m]) == [m] && Merge([m], []) == [m] && Ids([m]) == [m.id] && Tidy([m])
  {
    MergeFacts([], [m]);
    OnlyMember(Merge([], [m]), m);
    MergeNothing([m]);
  }

  lemma OnlyMember(s: seq<Message>, m: Message)
    requires UniqueIds(s) && (forall x :: x in s ==> x in [m]) && IdSet(s) == IdSet([]) + IdSet([m])
    ensures s == [m]
  {
    IdsAreSet(s);
    assert m in [m] && IdSet([m]) == {m.id} && IdSet([]) == {};
    assert |multiset(Ids(s))| == |Ids(s)| == |s|;
    assert |multiset({m.id})| == 1;
    assert forall k :: 0 <= k < |s| ==> s[k] in s && s[k] in [m];
  }

  // ---- A message that is sent again ----

  // Extracted by a flush and then sent again, a message is in a ledger row and in the buffer.
  lemma ResendBreaks(m: Message, flush: Call, again: Call)
    requires flush.messages == again.messages == [m] && Admitted(m, flush.mode) && again.mode == flush.mode
    requires flush.isFinal && flush.hasLlm && (flush.mode == Agent ==> Mappable(m)) && BuffersOnly(again)
    ensures var once := StateAfter([Entry(flush, Detected([1], 0))]);
            var twice := StateAfter([Entry(flush, Detected([1], 0)), Entry(again, Failed)]);
            once == Session([], [[m.id]]) && twice == Session([m], [[m.id]]) && !HeldOnce(twice)
  {
    FreshAlone(m, flush);
    FreshAlone(m, again);
    MergeAlone(m);
    var first, second := Entry(flush, Detected([1], 0)), Entry(again, Failed);
    SplitExact([m.id], [1]);
    SplitOne(m.id);
    hide Merge, Fresh, FreshIds, Split, Ids, HeldOnce;
    assert [first][..0] == [] && [first, second][..1] == [first];
    assert StateAfter([]) == Session([], []);
    assert Serve(Session([], []), flush, Detected([1], 0)).0 == Session([], [[m.id]]);
    InBoth(m);
  }

  lemma SplitOne(id: string)
    ensures Split([id], [1]) == Some([[id]])
  {
    assert [id][..1] == [id] && [id][1..] == [];
    var cells: seq<nat> := [1];
    assert cells[1..] == [] && Split([], cells[1..]) == Some([]);
    assert Split([id], cells) == Some([[id]] + []);
    assert [[id]] + [] == [[id]];
  }

  lemma InBoth(m: Message)
    ensures !HeldOnce(Session([m], [[m.id]]))
  {
    var s := Session([m], [[m.id]]);
    assert m.id in IdSet(s.buffer);
    assert Flatten(s.cells) == [m.id] + Flatten([]);
    assert m.id in Flatten(s.cells);
    forall held
      ensures !ExactlyOnce(s, held)
    {
      if ExactlyOnce(s, held) {
        ExactlyOnceMeans(s, held, m.id);
      }
    }
  }
}
