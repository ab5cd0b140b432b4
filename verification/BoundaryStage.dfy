// The boundary stage of one session: memory/src/everos/service/_boundary.py:96-221, 227-287, 453-480, entered
// from memory/src/everos/service/memorize.py:241-310.
module BoundaryPlan {
  import opened Prelude
  import opened MessageOrder
  import opened MessageMerge

  datatype Mode = Chat | Agent
  datatype Status = Accumulated | Extracted | Skipped

  // Chat mode drops tool rows and assistant rows with tool calls.
  predicate Admitted(m: Message, mode: Mode)
  {
    mode == Agent || (m.role != Tool && !m.hasToolCalls)
  }

  function FilterForMode(ms: seq<Message>, mode: Mode): seq<Message>
  {
    if ms == [] then [] else (if Admitted(ms[0], mode) then [ms[0]] else []) + FilterForMode(ms[1..], mode)
  }

  // The filter drops what is not admitted and keeps order and repetition of the rest.
  lemma {:induction false} FilterConcat(a: seq<Message>, b: seq<Message>, mode: Mode)
    ensures FilterForMode(a + b, mode) == FilterForMode(a, mode) + FilterForMode(b, mode)
  {
    hide Admitted;
    if a == [] {
      assert a + b == b;
    } else {
      assert (a + b)[1..] == a[1..] + b && (a + b)[0] == a[0];
      FilterConcat(a[1..], b, mode);
    }
  }

  // What the filter gives for any list: the messages at the places `at`, in order, and those are all the places of
  // agent mode, and in chat mode those of messages that are no tool rows and call no tools.
  lemma {:induction false} FilterPicks(ms: seq<Message>, mode: Mode) returns (at: seq<nat>)
    ensures |at| == |FilterForMode(ms, mode)|
    ensures forall k :: 0 <= k < |at| ==> at[k] < |ms| && FilterForMode(ms, mode)[k] == ms[at[k]]
    ensures forall j, k :: 0 <= j < k < |at| ==> at[j] < at[k]
    ensures forall i :: 0 <= i < |ms| ==> (i in at <==> mode == Agent || (ms[i].role != Tool && !ms[i].hasToolCalls))
  {
    at := [];
    if ms != [] {
      var n := |ms| - 1;
      var before := FilterPicks(ms[..n], mode);
      FilterConcat(ms[..n], [ms[n]], mode);
      assert ms == ms[..n] + [ms[n]];
      assert FilterForMode([ms[n]], mode) == if Admitted(ms[n], mode) then [ms[n]] else [];
      hide FilterForMode;
      at := before + if Admitted(ms[n], mode) then [n] else [];
      assert n !in before;
    }
  }

  // Rows without a counterpart among the algorithm's items make agent mode raise.
  predicate Mappable(m: Message) { if m.role == Tool then m.hasToolCallId else true }

  predicate AllMappable(ms: seq<Message>) { forall m :: m in ms ==> Mappable(m) }

  // Extraction needs a message of the user to anchor on.
  predicate HasUser(ms: seq<Message>) { exists m :: m in ms && m.role == User }

  // What the boundary detector did: raised, or returned cells with so many items each and a tail.
  datatype Detection = Failed | Detected(cells: seq<nat>, tail: nat)

  function Sum(ns: seq<nat>): nat { if ns == [] then 0 else ns[0] + Sum(ns[1..]) }

  // The detector's contract: cells and tail cut the merged list in order, without loss or overlap.
  predicate Cuts(det: Detection, merged: seq<Message>)
  {
    det.Detected? ==> Sum(det.cells) + det.tail == |merged|
  }

  // ---- Cutting ----

  // Message ids cell by cell, from the left; None is the IndexError of running past the end.
  function Split(ids: seq<string>, cells: seq<nat>): Option<seq<seq<string>>>
  {
    if cells == [] then Some([])
    else if cells[0] > |ids| then None
    else
      var rest :- Split(ids[cells[0]..], cells[1..]);
      Some([ids[..cells[0]]] + rest)
  }

  // merged[-n:], with the empty tail apart: merged[-0:] would be everything.
  function SliceTail(merged: seq<Message>, n: nat): seq<Message>
  {
    if n == 0 then [] else if n >= |merged| then merged else merged[|merged| - n..]
  }

  method SplitMessagesPerCell(merged: seq<Message>, cells: seq<nat>) returns (r: Option<seq<seq<string>>>)
    ensures r == Split(Ids(merged), cells)
  {
    var ids := Ids(merged);
    var result: seq<seq<string>>, ptr: nat := [], 0;
    assert ids[0..] == ids && cells[0..] == cells;
    assert forall t: seq<seq<string>> :: [] + t == t;
    for i := 0 to |cells|
      invariant ptr <= |ids|
      invariant Split(ids, cells) == Resumed(result, Split(ids[ptr..], cells[i..]))
    {
      var n := cells[i];
      if ptr + n > |merged| {
        assert cells[i..][0] == n;
        return None;
      }
      SplitStep(ids, ptr, cells, i, result);
      result := result + [ids[ptr..ptr + n]];
      ptr := ptr + n;
    }
    assert cells[|cells|..] == [] && result + [] == result;
    r := Some(result);
  }

  function Resumed(done: seq<seq<string>>, rest: Option<seq<seq<string>>>): Option<seq<seq<string>>>
  {
    if rest.None? then None else Some(done + rest.value)
  }

  lemma SplitStep(ids: seq<string>, ptr: nat, cells: seq<nat>, i: nat, done: seq<seq<string>>)
    requires i < |cells| && ptr + cells[i] <= |ids|
    ensures Resumed(done, Split(ids[ptr..], cells[i..])) ==
            Resumed(done + [ids[ptr..ptr + cells[i]]], Split(ids[ptr + cells[i]..], cells[i + 1..]))
  {
    var n := cells[i];
    assert cells[i..][1..] == cells[i + 1..];
    assert ids[ptr..][n..] == ids[ptr + n..] && ids[ptr..][..n] == ids[ptr..ptr + n];
    var rest := Split(ids[ptr + n..], cells[i + 1..]);
    if rest.Some? {
      assert done + ([ids[ptr..ptr + n]] + rest.value) == done + [ids[ptr..ptr + n]] + rest.value;
    }
  }

  // The walk stays inside the list exactly when the cells have no more items than the list has
  // messages, and then the cells hold its first messages in order.
  lemma {:induction false} SplitExact(ids: seq<string>, cells: seq<nat>)
    ensures Split(ids, cells).Some? <==> Sum(cells) <= |ids|
    ensures Split(ids, cells).Some? ==>
              Flatten(Split(ids, cells).value) == ids[..Sum(cells)] && |Split(ids, cells).value| == |cells|
    decreases |cells|
  {
    if cells != [] && cells[0] <= |ids| {
      var rest := ids[cells[0]..];
      SplitExact(rest, cells[1..]);
      if Sum(cells) <= |ids| {
        assert ids[..Sum(cells)] == ids[..cells[0]] + rest[..Sum(cells[1..])];
      }
    }
  }

  // Cells and tail give back the merged ids, each once and in order, exactly when the detector keeps its
  // contract (a tail longer than the list counts as the whole list).
  lemma PartitionExact(merged: seq<Message>, cells: seq<nat>, tail: nat)
    requires Sum(cells) <= |merged|
    ensures Split(Ids(merged), cells).Some?
    ensures var kept := if tail <= |merged| then tail else |merged|;
            Flatten(Split(Ids(merged), cells).value) + Ids(SliceTail(merged, tail)) == Ids(merged)
            <==> Sum(cells) + kept == |merged|
  {
    var ids := Ids(merged);
    SplitExact(ids, cells);
    hide Split, Sum;
    var rest := Ids(SliceTail(merged, tail));
    if Sum(cells) + |rest| == |merged| {
      assert rest == ids[Sum(cells)..];
      assert ids[..Sum(cells)] + ids[Sum(cells)..] == ids;
    }
  }

  // ---- One call ----

  datatype Call = Call(messages: seq<Message>, mode: Mode, isFinal: bool, deferred: bool, hasLlm: bool)

  // Deferred buffering is only for calls that are not final.
  predicate BuffersOnly(c: Call) { c.deferred && !c.isFinal }

  function Fresh(c: Call): seq<Message> { FilterForMode(c.messages, c.mode) }

  // Nothing to do and nothing read.
  predicate PassesBy(c: Call) { Fresh(c) == [] && !c.isFinal }

  // What a call does with the merged list.
  datatype Plan =
    | Keep                                                  // nothing buffered, nothing new
    | Store(rows: seq<Message>, status: Status)             // rewrite the buffer
    | Extract(cells: seq<seq<string>>, rows: seq<Message>)  // ledger rows, then rewrite the buffer
    | Raise

  function PlanOf(c: Call, merged: seq<Message>, det: Detection): Plan
  {
    if BuffersOnly(c) then Store(merged, Accumulated)
    else if merged == [] then Keep
    else if !c.isFinal && !HasUser(merged) then Store(merged, Accumulated)
    else if !c.hasLlm then Store(merged, Skipped)
    else if c.mode == Agent && !AllMappable(merged) then Raise
    else if det.Failed? then Raise
    else if det.cells == [] then Store(merged, Accumulated)
    else
      var split := Split(Ids(merged), det.cells);
      if split.None? then Raise else Extract(split.value, SliceTail(merged, det.tail))
  }

  // The durable state of a session: buffered messages, and the message ids of each ledger row.
  datatype Session = Session(buffer: seq<Message>, cells: seq<seq<string>>)

  datatype Reply = Raised | Returned(status: Status, cells: seq<seq<string>>, count: nat)

  ghost function Serve(s: Session, c: Call, det: Detection): (Session, Reply)
  {
    var n := |Fresh(c)|;
    if PassesBy(c) then (s, Returned(Skipped, [], 0))
    else
      match PlanOf(c, Merge(s.buffer, Fresh(c)), det)
      case Keep => (s, Returned(Accumulated, [], 0))
      case Store(rows, status) => (s.(buffer := rows), Returned(status, [], n))
      case Extract(cells, rows) => (Session(rows, s.cells + cells), Returned(Extracted, cells, n))
      case Raise => (s, Raised)
  }

  // Where an exception ends a call that gets there: at reading the buffer, inserting ledger rows, replacing the
  // buffer (or the status update just before it), the status update behind it, or in the pipelines behind the stage.
  datatype Halt = Nowhere | AtRead | AtInsert | AtReplace | AtTouch | InPipelines

  ghost function StageHalted(s: Session, c: Call, det: Detection, halt: Halt): (Session, Reply)
  {
    var (after, reply) := Serve(s, c, det);
    if PassesBy(c) then (after, reply)
    else if halt.AtRead? then (s, Raised)
    else
      match PlanOf(c, Merge(s.buffer, Fresh(c)), det)
      case Keep => (after, reply)
      case Raise => (after, reply)
      case Store(rows, status) =>
        if halt.AtReplace? then (s, Raised)
        else if halt.AtTouch? && status == Accumulated then (after, Raised)
        else (after, reply)
      case Extract(rows, _) =>
        if halt.AtInsert? then (s, Raised)
        else if halt.AtReplace? then (s.(cells := s.cells + rows), Raised)
        else (after, reply)
  }

  ghost function ServeHalted(s: Session, c: Call, det: Detection, halt: Halt): (Session, Reply)
  {
    var (after, reply) := StageHalted(s, c, det, halt);
    (after, if halt.InPipelines? && reply.Returned? && reply.status == Extracted then Raised else reply)
  }
}

module BoundaryStage {
  import opened MessageOrder
  import opened MessageMerge
  import opened BoundaryPlan

  // The two tables behind one session.
  class SessionStore {
    var buffer: seq<Message>
    var cells: seq<seq<string>>

    constructor ()
      ensures State() == Session([], [])
    {
      buffer, cells := [], [];
    }

    ghost function State(): Session
      reads this
    {
      Session(buffer, cells)
    }

    method BufferMessages(c: Call, ghost det: Detection, halt: Halt) returns (reply: Reply)
      requires BuffersOnly(c)
      modifies this`buffer
      ensures (State(), reply) == StageHalted(old(State()), c, det, halt)
    {
      var arrived := Fresh(c);
      if arrived == [] {
        return Returned(Skipped, [], 0);
      }
      if halt.AtRead? {
        return Raised;
      }
      var merged := MergeDedupeSort(buffer, arrived);
      if halt.AtReplace? {
        return Raised;
      }
      buffer := merged;
      reply := if halt.AtTouch? then Raised else Returned(Accumulated, [], |arrived|);
    }

    // `det` is what the detector would answer for the merged list.
    method PrepareCells(c: Call, det: Detection, halt: Halt) returns (reply: Reply)
      requires !BuffersOnly(c)
      modifies this
      ensures (State(), reply) == StageHalted(old(State()), c, det, halt)
    {
      hide Merge, Lists, Split, SliceTail, Ids, Fresh, HasUser, AllMappable, WithDefaults, ByIdLast;
      var arrived := Fresh(c);
      if arrived == [] && !c.isFinal {
        return Returned(Skipped, [], 0);
      }
      if halt.AtRead? {
        return Raised;
      }
      var merged := MergeDedupeSort(buffer, arrived);
      if merged == [] {
        return Returned(Accumulated, [], 0);
      }
      if !c.isFinal && !HasUser(merged) {
        if halt.AtReplace? {
          return Raised;
        }
        buffer := merged;
        return if halt.AtTouch? then Raised else Returned(Accumulated, [], |arrived|);
      }
      if !c.hasLlm {
        if halt.AtReplace? {
          return Raised;
        }
        buffer := merged;
        return Returned(Skipped, [], |arrived|);
      }
      if c.mode == Agent && !AllMappable(merged) {
        return Raised;
      }
      if det.Failed? {
        return Raised;
      }
      if det.cells == [] {
        if halt.AtReplace? {
          return Raised;
        }
        buffer := merged;
        return if halt.AtTouch? then Raised else Returned(Accumulated, [], |arrived|);
      }
      var perCell := SplitMessagesPerCell(merged, det.cells);
      if perCell.None? || halt.AtInsert? {
        return Raised;
      }
      cells := cells + perCell.value;
      if halt.AtReplace? {
        return Raised;
      }
      buffer := SliceTail(merged, det.tail);
      reply := Returned(Extracted, perCell.value, |arrived|);
    }

    // The locked section of memorize; of the pipelines only that they raise.
    method Memorize(c: Call, det: Detection, halt: Halt) returns (reply: Reply)
      modifies this
      ensures (State(), reply) == ServeHalted(old(State()), c, det, halt)
    {
      if BuffersOnly(c) {
        reply := BufferMessages(c, det, halt);
      } else {
        reply := PrepareCells(c, det, halt);
      }
      if halt.InPipelines? && reply.Returned? && reply.status == Extracted {
        reply := Raised;
      }
    }
  }
}
