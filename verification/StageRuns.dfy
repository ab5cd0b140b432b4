// Interrupted and resumed runs of one stage: memory/benchmarks/run.py:811-851, 1213-1308, 1623-1645.
module StageRuns {
  import opened Prelude
  import opened Decimal
  import opened RowText
  import opened StageText
  import opened StageLog
  import opened Utf8

  // What the workers of a run answer, question by question, how many bytes of each line reach the disk, the order
  // in which the questions complete, and how many bytes of the rewrite reach the disk, None when the process
  // is killed before it. A question that is never reached has no bytes written.
  datatype Attempt = Attempt(answers: seq<string>, rooms: seq<nat>, schedule: seq<nat>, end: Option<nat>)

  // Each question completes once.
  ghost predicate Proper(a: Attempt, n: nat)
  {
    && |a.answers| == |a.rooms| == n && (forall i :: 0 <= i < n ==> IsRow(a.answers[i], i))
    && FitsSchedule(a.schedule, n)
    && (forall i :: 0 <= i < n ==> i in a.schedule)
  }

  ghost predicate FitsSchedule(schedule: seq<nat>, n: nat)
  {
    && (forall k :: 0 <= k < |schedule| ==> schedule[k] < n)
    && (forall j, k :: 0 <= j < k < |schedule| ==> schedule[j] != schedule[k])
  }

  ghost predicate AllProper(attempts: seq<Attempt>, n: nat)
  {
    forall k :: 0 <= k < |attempts| ==> Proper(attempts[k], n)
  }

  ghost function After(file: seq<Byte>, a: Attempt, n: nat): Left
    requires Proper(a, n)
  {
    Ran(file, a.answers, a.rooms, a.schedule, a.end)
  }

  // The rows a run on this text appends, and how many bytes of each.
  ghost function Arrived(text: string, a: Attempt, n: nat): seq<string>
    requires Proper(a, n)
  {
    Pending(text, a.answers, a.schedule)
  }

  ghost function Rooms(text: string, a: Attempt, n: nat): (r: seq<nat>)
    requires Proper(a, n)
    ensures |r| == |Arrived(text, a, n)|
  {
    PendingAlike(text, a.answers, a.rooms, a.schedule);
    Pending(text, a.rooms, a.schedule)
  }

  // The file after these runs.
  ghost function RunOn(file: seq<Byte>, attempts: seq<Attempt>, n: nat): seq<Byte>
    requires AllProper(attempts, n)
  {
    if attempts == [] then file
    else After(RunOn(file, attempts[..|attempts| - 1], n), attempts[|attempts| - 1], n).file
  }

  ghost function RunAll(attempts: seq<Attempt>, n: nat): seq<Byte>
    requires AllProper(attempts, n)
  {
    RunOn([], attempts, n)
  }

  // What every run keeps: each line that is read is a row of a question, no two of the same one, and what
  // stands behind the last newline began as a row.
  ghost predicate Sound(text: string, n: nat)
  {
    OpenBrace(Tail(text)) && AllRows(Rows(text), n) && Distinct(Rows(text))
  }

  // ---- Sets of indices ----

  lemma IndicesConcat(a: seq<string>, b: seq<string>)
    ensures Indices(a + b) == Indices(a) + Indices(b)
  {
    hide Index;
    assert forall r :: r in a + b <==> r in a || r in b;
  }

  lemma DistinctConcat(a: seq<string>, b: seq<string>)
    ensures Distinct(a + b) <==> Distinct(a) && Distinct(b) && Indices(a) !! Indices(b)
  {
    hide Index;
    var c := a + b;
    if Distinct(c) {
      forall j, k | 0 <= j < k < |a|
        ensures Index(a[j]) != Index(a[k])
      {
        assert c[j] == a[j] && c[k] == a[k];
      }
      forall j, k | 0 <= j < k < |b|
        ensures Index(b[j]) != Index(b[k])
      {
        assert c[|a| + j] == b[j] && c[|a| + k] == b[k];
      }
      forall j, k | 0 <= j < |a| && 0 <= k < |b|
        ensures Index(a[j]) != Index(b[k])
      {
        assert c[j] == a[j] && c[|a| + k] == b[k];
      }
    }
    if Distinct(a) && Distinct(b) && Indices(a) !! Indices(b) {
      forall j, k | 0 <= j < k < |c|
        ensures Index(c[j]) != Index(c[k])
      {
        if j < |a| <= k {
          assert Index(a[j]) in Indices(a) && Index(b[k - |a|]) in Indices(b);
        }
      }
    }
  }

  // The questions of a schedule that are not done yet.
  ghost function Todo(text: string, schedule: seq<nat>): set<nat>
  {
    set i | i in schedule && i !in Indices(Rows(text))
  }

  lemma TodoStep(text: string, schedule: seq<nat>, k: nat)
    requires k < |schedule| && forall j :: 0 <= j < k ==> schedule[j] != schedule[k]
    ensures Todo(text, schedule[..k + 1]) ==
            Todo(text, schedule[..k]) + if schedule[k] in Indices(Rows(text)) then {} else {schedule[k]}
    ensures schedule[k] !in Todo(text, schedule[..k])
  {
    hide Indices, Rows;
    assert schedule[..k + 1] == schedule[..k] + [schedule[k]];
    assert forall x :: x in schedule[..k + 1] <==> x in schedule[..k] || x == schedule[k];
  }

  lemma {:induction false} ArrivedFit(text: string, answers: seq<string>, schedule: seq<nat>, k: nat, n: nat)
    requires |answers| == n && forall i :: 0 <= i < n ==> IsRow(answers[i], i)
    requires FitsSchedule(schedule, n) && k <= |schedule|
    ensures var arrived := Pending(text, answers, schedule[..k]);
            AllRows(arrived, n) && Distinct(arrived) && Indices(arrived) == Todo(text, schedule[..k])
  {
    if k == 0 {
      hide *;
      assert schedule[..0] == [];
      NoneArrived(text, answers, n);
    } else {
      hide Index, Rows, Pending, Indices, Distinct, AllRows, Todo, IsRow, ToString, Done;
      var i := schedule[k - 1];
      var before := Pending(text, answers, schedule[..k - 1]);
      ArrivedFit(text, answers, schedule, k - 1, n);
      PendingStep(text, answers, schedule, k - 1);
      TodoStep(text, schedule, k - 1);
      IsDone(text, i);
      AnswerIndex(answers[i], i);
      hide *;
      if i !in Indices(Rows(text)) {
        IndicesConcat(before, [answers[i]]);
        DistinctConcat(before, [answers[i]]);
        OneMoreRow(before, answers[i], n);
      }
    }
  }

  lemma NoneArrived(text: string, answers: seq<string>, n: nat)
    ensures Pending(text, answers, []) == [] && AllRows([], n) && Distinct([]) && Indices([]) == {} == Todo(text, [])
  {
    hide Rows;
  }

  lemma OneMoreRow(rows: seq<string>, row: string, n: nat)
    requires AllRows(rows, n) && IsRow(row, Index(row)) && Index(row) < n
    ensures AllRows(rows + [row], n)
  {
    hide IsRow, Index;
  }

  lemma AnswerIndex(row: string, i: nat)
    requires IsRow(row, i)
    ensures Index(row) == i && Indices([row]) == {i} && Distinct([row])
  {
    RowReadBack(row, i);
    hide IsRow, IndexOf;
    assert row in [row];
  }

  lemma IsDone(text: string, i: nat)
    ensures ToString(i) in Done(text) <==> i in Indices(Rows(text))
  {
    hide Rows, Index, ToString;
    if ToString(i) in Done(text) {
      var r :| r in Rows(text) && ToString(Index(r)) == ToString(i);
      ToStringInjective(Index(r), i);
    }
  }

  // ---- Bytes and characters ----

  // Every append of a run stopped between two characters, or not at all.
  ghost predicate OnBoundaries(rows: seq<string>, rooms: seq<nat>)
    requires |rows| == |rooms|
  {
    forall k :: 0 <= k < |rows| ==> OnBoundary(rows[k] + "\n", rooms[k])
  }

  // The characters of what was written.
  function WrittenText(rows: seq<string>, rooms: seq<nat>): string
    requires |rows| == |rooms|
  {
    if rows == [] then ""
    else (rows[0] + "\n")[..WholeChars(rows[0] + "\n", rooms[0])] + WrittenText(rows[1..], rooms[1..])
  }

  // What is appended can be read exactly when no append stopped inside a character, wherever it stopped else.
  lemma {:induction false} WrittenRead(rows: seq<string>, rooms: seq<nat>, n: nat)
    requires |rows| == |rooms| && AllRows(rows, n)
    ensures Decode(Written(rows, rooms)) == if OnBoundaries(rows, rooms) then Some(WrittenText(rows, rooms)) else None
    ensures Written(rows, rooms) == [] || !IsTrail(Written(rows, rooms)[0])
  {
    hide OnBoundary, IsTrail, Decode, Encode, IsRow, Index, WholeChars;
    if rows == [] {
      NothingRead();
    } else {
      var rest := Written(rows[1..], rooms[1..]);
      WrittenRead(rows[1..], rooms[1..], n);
      CutRead(rows[0] + "\n", rooms[0], rest);
      FirstByte(rows[0], rooms[0], rest);
      BoundariesSplit(rows, rooms);
    }
  }

  lemma NothingRead()
    ensures Decode([]) == Some("")
  {
  }

  lemma BoundariesSplit(rows: seq<string>, rooms: seq<nat>)
    requires |rows| == |rooms| && rows != []
    ensures OnBoundaries(rows, rooms) <==> OnBoundary(rows[0] + "\n", rooms[0]) && OnBoundaries(rows[1..], rooms[1..])
  {
    hide OnBoundary;
    if OnBoundary(rows[0] + "\n", rooms[0]) && OnBoundaries(rows[1..], rooms[1..]) {
      forall k | 0 <= k < |rows|
        ensures OnBoundary(rows[k] + "\n", rooms[k])
      {
        if k > 0 {
          assert rows[k] == rows[1..][k - 1] && rooms[k] == rooms[1..][k - 1];
        }
      }
    }
    if OnBoundaries(rows, rooms) {
      forall k | 0 <= k < |rows| - 1
        ensures OnBoundary(rows[1..][k] + "\n", rooms[1..][k])
      {
        assert rows[1..][k] == rows[k + 1] && rooms[1..][k] == rooms[k + 1];
      }
    }
  }

  // A row begins with a brace, a byte of its own.
  lemma FirstByte(row: string, room: nat, rest: seq<Byte>)
    requires IsRow(row, Index(row)) && (rest == [] || !IsTrail(rest[0]))
    ensures var b := Upto(Encode(row + "\n"), room) + rest;
            b == [] || !IsTrail(b[0])
  {
    RowHead(row, Index(row));
    hide IsRow, Index;
    var line := row + "\n";
    assert Encode(line) == EncodeChar('{') + Encode(line[1..]);
  }

  lemma {:induction false} TakenWhole(rows: seq<string>, rooms: seq<nat>)
    requires |rows| == |rooms| && AllTaken(rows, rooms)
    ensures OnBoundaries(rows, rooms) && WrittenText(rows, rooms) == Join(rows)
            && Written(rows, rooms) == Encode(Join(rows))
  {
    hide OnBoundary, WholeChars, Encode;
    if rows == [] {
      NothingEncoded();
    } else {
      var line := rows[0] + "\n";
      forall k | 0 <= k < |rows| - 1
        ensures rooms[1..][k] >= |Encode(rows[1..][k] + "\n")|
      {
        assert rows[1..][k] == rows[k + 1] && rooms[1..][k] == rooms[k + 1];
      }
      TakenWhole(rows[1..], rooms[1..]);
      WholeWritten(line, rooms[0]);
      assert line[..|line|] == line;
      EncodeConcat(line, Join(rows[1..]));
      BoundariesSplit(rows, rooms);
    }
  }

  lemma NothingEncoded()
    ensures Encode("") == []
  {
  }

  // ---- One run ----

  // Whether a run that writes these rows writes behind the remains of another.
  predicate Spoils(text: string, rows: seq<string>) { Tail(text) != "" && rows != [] }

  // The rows of the file that are still read afterwards.
  function Kept(text: string, rows: seq<string>): seq<string>
  {
    if Spoils(text, rows) then ClosedRows(text) else Rows(text)
  }

  // Those of the appended rows that are read.
  function Added(text: string, rows: seq<string>): seq<string>
  {
    if Spoils(text, rows) then rows[1..] else rows
  }

  lemma AppendRows(text: string, rows: seq<string>, n: nat)
    requires OpenBrace(Tail(text)) && AllRows(rows, n)
    ensures Rows(text + Join(rows)) == Kept(text, rows) + Added(text, rows)
  {
    hide Rows, ClosedRows, Tail, AllRows;
    if Spoils(text, rows) {
      AppendDirty(text, rows, n);
    } else if Tail(text) == "" {
      var j := AppendClean(text, rows, |Join(rows)|, n);
      assert rows[..j] == rows && Upto(Join(rows), |Join(rows)|) == Join(rows);
    } else {
      NoRowsJoined(text);
      assert Rows(text) + rows == Rows(text);
    }
  }

  lemma NoRowsJoined(text: string)
    ensures text + Join([]) == text
  {
  }

  lemma ClosedIsPrefix(text: string)
    ensures ClosedRows(text) <= Rows(text)
  {
    RowsAre(text);
  }

  lemma KeptIsPrefix(text: string, rows: seq<string>)
    ensures Kept(text, rows) <= Rows(text)
  {
    ClosedIsPrefix(text);
  }

  // Part of a sound list is sound.
  lemma PartSound(whole: seq<string>, kept: seq<string>, rows: seq<string>, first: nat, j: nat, n: nat)
    requires kept <= whole && first <= j <= |rows| && AllRows(whole, n) && AllRows(rows, n) && Distinct(whole + rows)
    ensures AllRows(kept + rows[first..j], n) && Distinct(kept + rows[first..j])
  {
    hide Index, IsRow;
    var part, all := kept + rows[first..j], whole + rows;
    forall k | 0 <= k < |part|
      ensures Index(part[k]) < n && IsRow(part[k], Index(part[k]))
    {
      assert part[k] == if k < |kept| then whole[k] else rows[first + k - |kept|];
    }
    forall i, k | 0 <= i < k < |part|
      ensures Index(part[i]) != Index(part[k])
    {
      var x := if i < |kept| then i else |whole| + first + i - |kept|;
      var y := if k < |kept| then k else |whole| + first + k - |kept|;
      assert part[i] == all[x] && part[k] == all[y];
    }
  }

  // Rows written any number of characters each, behind any sound text, leave a sound text.
  lemma {:induction false} PiecesSound(text: string, rows: seq<string>, rooms: seq<nat>, n: nat)
    requires |rows| == |rooms| && Sound(text, n) && AllRows(rows, n) && Distinct(Rows(text) + rows)
    ensures Sound(text + WrittenText(rows, rooms), n)
    decreases |rows|
  {
    hide Rows, Tail, ClosedRows, AllRows, Distinct, OpenBrace, WholeChars, Index, IsRow;
    if rows == [] {
      assert text + WrittenText(rows, rooms) == text;
    } else {
      var line := rows[0] + "\n";
      var m := WholeChars(line, rooms[0]);
      PieceSound(text, rows, m, n);
      PiecesSound(text + line[..m], rows[1..], rooms[1..], n);
      assert text + WrittenText(rows, rooms) == text + line[..m] + WrittenText(rows[1..], rooms[1..]);
    }
  }

  lemma PieceSound(text: string, rows: seq<string>, m: nat, n: nat)
    requires rows != [] && m <= |rows[0]| + 1 && Sound(text, n) && AllRows(rows, n) && Distinct(Rows(text) + rows)
    ensures Sound(text + (rows[0] + "\n")[..m], n) && AllRows(rows[1..], n)
    ensures Distinct(Rows(text + (rows[0] + "\n")[..m]) + rows[1..])
  {
    var t := text + (rows[0] + "\n")[..m];
    PieceStep(text, rows[0], m);
    ClosedIsPrefix(text);
    var kept := if m > 0 && Tail(text) != "" then ClosedRows(text) else Rows(text);
    var isRead := m > 0 && m >= |rows[0]| && Tail(text) == "";
    hide *;
    PartRead(Rows(text), kept, rows, isRead, n);
    assert Rows(t) == kept + if isRead then [rows[0]] else [];
    SoundIs(t, n);
    SoundIs(text, n);
  }

  lemma SoundIs(text: string, n: nat)
    ensures Sound(text, n) <==> OpenBrace(Tail(text)) && AllRows(Rows(text), n) && Distinct(Rows(text))
  {
  }

  // The kept rows, the first of the others or not, and the rest of them.
  lemma PartRead(whole: seq<string>, kept: seq<string>, rows: seq<string>, isRead: bool, n: nat)
    requires kept <= whole && rows != [] && AllRows(whole, n) && AllRows(rows, n) && Distinct(whole + rows)
    ensures var part := kept + if isRead then [rows[0]] else [];
            AllRows(part, n) && Distinct(part) && AllRows(rows[1..], n) && Distinct(part + rows[1..])
  {
    hide *;
    var first := if isRead then 0 else 1;
    var part := kept + if isRead then [rows[0]] else [];
    PartSound(whole, kept, rows, first, |rows|, n);
    assert part + rows[1..] == kept + rows[first..|rows|];
    Halves(part, rows[1..], n);
  }

  lemma Halves(a: seq<string>, b: seq<string>, n: nat)
    requires AllRows(a + b, n) && Distinct(a + b)
    ensures AllRows(a, n) && AllRows(b, n) && Distinct(a)
  {
    DistinctConcat(a, b);
    hide Index, IsRow, Distinct;
    forall k | 0 <= k < |a|
      ensures IsRow(a[k], Index(a[k])) && Index(a[k]) < n
    {
      assert (a + b)[k] == a[k];
    }
    forall k | 0 <= k < |b|
      ensures IsRow(b[k], Index(b[k])) && Index(b[k]) < n
    {
      assert (a + b)[|a| + k] == b[k];
    }
  }

  lemma AttemptFits(text: string, a: Attempt, n: nat)
    requires Sound(text, n) && Proper(a, n)
    ensures AllRows(Arrived(text, a, n), n) && Distinct(Rows(text) + Arrived(text, a, n))
    ensures Indices(Rows(text)) + Indices(Arrived(text, a, n)) == Below(n)
  {
    var arrived := Arrived(text, a, n);
    ArrivedFit(text, a.answers, a.schedule, |a.schedule|, n);
    assert a.schedule[..|a.schedule|] == a.schedule;
    hide IsRow, Index, Rows, Tail, Pending, Indices, Distinct, AllRows, Below;
    DistinctConcat(Rows(text), arrived);
    IndicesBelow(Rows(text), n);
    TodoAll(text, a.schedule, n);
  }

  lemma IndicesBelow(rows: seq<string>, n: nat)
    requires AllRows(rows, n)
    ensures Indices(rows) <= Below(n)
  {
    hide IsRow, Index;
  }

  lemma TodoAll(text: string, schedule: seq<nat>, n: nat)
    requires FitsSchedule(schedule, n) && (forall i :: 0 <= i < n ==> i in schedule) && Indices(Rows(text)) <= Below(n)
    ensures Indices(Rows(text)) + Todo(text, schedule) == Below(n) && Indices(Rows(text)) !! Todo(text, schedule)
  {
    hide Indices, Rows;
  }

  // What the file holds once everything that arrived is appended.
  lemma AppendedRows(text: string, a: Attempt, n: nat)
    requires Sound(text, n) && Proper(a, n)
    ensures var arrived := Arrived(text, a, n);
            var rows := Rows(text + Join(arrived));
            rows == Kept(text, arrived) + Added(text, arrived) && AllRows(rows, n) && Distinct(rows)
  {
    hide *;
    var arrived := Arrived(text, a, n);
    AttemptFits(text, a, n);
    SoundIs(text, n);
    AppendRows(text, arrived, n);
    AddedSound(text, arrived, n);
  }

  lemma AddedSound(text: string, rows: seq<string>, n: nat)
    requires AllRows(Rows(text), n) && AllRows(rows, n) && Distinct(Rows(text) + rows)
    ensures AllRows(Kept(text, rows) + Added(text, rows), n) && Distinct(Kept(text, rows) + Added(text, rows))
  {
    KeptIsPrefix(text, rows);
    hide Rows, ClosedRows, Tail, AllRows, Distinct;
    var first := if Spoils(text, rows) then 1 else 0;
    assert rows[first..|rows|] == Added(text, rows);
    PartSound(Rows(text), Kept(text, rows), rows, first, |rows|, n);
  }

  // A rewrite, cut short anywhere, leaves the first of the sorted rows.
  lemma RewrittenRows(rows: seq<string>, w: nat, n: nat) returns (j: nat)
    requires AllRows(rows, n)
    ensures var t := Upto(Join(rows), w);
            && j <= |rows| && Rows(t) == rows[..j] && OpenBrace(Tail(t))
            && (w >= |Join(rows)| ==> j == |rows| && Tail(t) == "")
  {
    EmptyFile();
    hide Rows, Tail, AllRows;
    j := AppendClean("", rows, w, n);
    assert "" + Upto(Join(rows), w) == Upto(Join(rows), w) && [] + rows[..j] == rows[..j];
  }

  lemma EmptyFile()
    ensures Rows("") == [] && Tail("") == ""
  {
    BlankRow();
    assert [""][..0] == [];
  }

  lemma FirstSound(rows: seq<string>, j: nat, n: nat)
    requires AllRows(rows, n) && Distinct(rows) && j <= |rows|
    ensures AllRows(rows[..j], n) && Distinct(rows[..j])
  {
    hide Index, IsRow;
  }

  // No append of the run, nor its rewrite, stopped inside a character.
  ghost predicate Unbroken(file: seq<Byte>, a: Attempt, n: nat)
    requires Proper(a, n)
  {
    Decode(file).Some? &&
    var text := Decode(file).value;
    var rows, rooms := Arrived(text, a, n), Rooms(text, a, n);
    && OnBoundaries(rows, rooms)
    && (AllTaken(rows, rooms) && a.end.Some? ==> OnBoundary(Join(Final(text, rows)), a.end.value))
  }

  // The rows of a rewrite once these have arrived.
  function Final(text: string, rows: seq<string>): seq<string> { SortByIndex(Rows(text + Join(rows))) }

  // What the file reads as after a run on a readable one, and what the run returns.
  lemma ReadAfter(file: seq<Byte>, a: Attempt, n: nat)
    requires Proper(a, n) && Decode(file).Some? && Sound(Decode(file).value, n)
    ensures var text, read := Decode(file).value, Decode(After(file, a, n).file);
            var rows, rooms := Arrived(text, a, n), Rooms(text, a, n);
            if !Unbroken(file, a, n) then read == None
            else if AllTaken(rows, rooms) && a.end.Some? then
              var sorted := Join(Final(text, rows));
              read == Some(sorted[..WholeChars(sorted, a.end.value)])
            else read == Some(text + WrittenText(rows, rooms))
    ensures var text := Decode(file).value;
            var rows := Arrived(text, a, n);
            After(file, a, n).rows ==
            if AllTaken(rows, Rooms(text, a, n)) && a.end.Some? && a.end.value >= |Encode(Join(Final(text, rows)))|
            then Some(Final(text, rows)) else None
  {
    var text := Decode(file).value;
    var rows, rooms := Arrived(text, a, n), Rooms(text, a, n);
    AttemptFits(text, a, n);
    AppendedRead(file, rows, rooms, n);
    hide Decode, Encode, Written, WrittenText, OnBoundaries, OnBoundary, AllTaken, Sound, Proper, Pending;
    hide SortByIndex, Rows, Join, Rewritten;
    if AllTaken(rows, rooms) && a.end.Some? {
      RewrittenRead(file + Written(rows, rooms), a.end.value);
    }
  }

  lemma AppendedRead(file: seq<Byte>, rows: seq<string>, rooms: seq<nat>, n: nat)
    requires Decode(file).Some? && |rows| == |rooms| && AllRows(rows, n)
    ensures var text, read := Decode(file).value, Decode(file + Written(rows, rooms));
            && read == (if OnBoundaries(rows, rooms) then Some(text + WrittenText(rows, rooms)) else None)
            && (AllTaken(rows, rooms) ==> OnBoundaries(rows, rooms) && read == Some(text + Join(rows)))
  {
    hide Decode, Encode, Written, WrittenText, OnBoundaries, AllTaken, AllRows;
    WrittenRead(rows, rooms, n);
    DecodeAppend(file, Written(rows, rooms));
    if AllTaken(rows, rooms) {
      TakenWhole(rows, rooms);
    }
  }

  lemma RewrittenRead(file: seq<Byte>, room: nat)
    requires Decode(file).Some?
    ensures var rows, left := SortByIndex(Rows(Decode(file).value)), Rewritten(file, room);
            var sorted := Join(rows);
            && Decode(left.file) ==
               (if OnBoundary(sorted, room) then Some(sorted[..WholeChars(sorted, room)]) else None)
            && left.rows == if room >= |Encode(sorted)| then Some(rows) else None
  {
    hide Decode, Encode, OnBoundary, SortByIndex, Rows, Join, WholeChars;
    var sorted := Join(SortByIndex(Rows(Decode(file).value)));
    CutRead(sorted, room, []);
    NothingRead();
    var written, m := Upto(Encode(sorted), room), WholeChars(sorted, room);
    assert written + [] == written && sorted[..m] + "" == sorted[..m];
  }

  // A run leaves a readable file exactly when it stopped inside no character, and then a sound one.
  lemma StepSound(file: seq<Byte>, a: Attempt, n: nat)
    requires Proper(a, n) && Decode(file).Some? && Sound(Decode(file).value, n)
    ensures var read := Decode(After(file, a, n).file);
            (read.Some? <==> Unbroken(file, a, n)) && (read.Some? ==> Sound(read.value, n))
  {
    var text := Decode(file).value;
    var rows, rooms := Arrived(text, a, n), Rooms(text, a, n);
    ReadAfter(file, a, n);
    hide Decode, Proper, After, Arrived, Rooms, Rows, Unbroken, Sound, AllTaken, WrittenText, Join;
    if Unbroken(file, a, n) {
      if AllTaken(rows, rooms) && a.end.Some? {
        RewriteSound(text, a, a.end.value, n);
      } else {
        AttemptFits(text, a, n);
        PiecesSound(text, rows, rooms, n);
      }
    }
  }

  lemma RewriteSound(text: string, a: Attempt, room: nat, n: nat)
    requires Sound(text, n) && Proper(a, n)
    ensures var sorted := Join(Final(text, Arrived(text, a, n)));
            Sound(sorted[..WholeChars(sorted, room)], n)
  {
    var rows := Rows(text + Join(Arrived(text, a, n)));
    var final := SortByIndex(rows);
    AppendedRows(text, a, n);
    SortKeeps(rows, n);
    hide Rows, Tail, ClosedRows, AllRows, Distinct, Ascending, Indices, Arrived, Join, SortByIndex, Kept, Spoils;
    hide Proper;
    var m := WholeChars(Join(final), room);
    var j := RewrittenRows(final, m, n);
    FirstSound(final, j, n);
  }

  // ---- Every run ----

  // None of these runs, one after the other from an empty file, stopped inside a character.
  ghost predicate NeverInside(attempts: seq<Attempt>, n: nat)
    requires AllProper(attempts, n)
  {
    attempts != [] ==>
      var before := attempts[..|attempts| - 1];
      NeverInside(before, n) && Unbroken(RunAll(before, n), attempts[|attempts| - 1], n)
  }

  // After any sequence of runs, of which every append and every rewrite may stop at any byte: the file can be read
  // exactly when nothing stopped inside a character, and then no two rows that are read belong to one question.
  lemma {:induction false} AlwaysSound(attempts: seq<Attempt>, n: nat)
    requires AllProper(attempts, n)
    ensures var read := Decode(RunAll(attempts, n));
            (read.Some? <==> NeverInside(attempts, n)) && (read.Some? ==> Sound(read.value, n))
  {
    hide After, Sound, Proper, Unbroken, Decode;
    if attempts == [] {
      EmptySound(n);
    } else {
      var before, last := attempts[..|attempts| - 1], attempts[|attempts| - 1];
      AlwaysSound(before, n);
      if NeverInside(before, n) {
        StepSound(RunAll(before, n), last, n);
      } else {
        RaisesAtOnce(RunAll(before, n), last, n);
      }
    }
  }

  lemma EmptySound(n: nat)
    ensures Decode([]) == Some("") && Sound("", n)
  {
    EmptyFile();
  }

  lemma RaisesAtOnce(file: seq<Byte>, a: Attempt, n: nat)
    requires Proper(a, n) && Decode(file).None?
    ensures After(file, a, n) == Left(file, None)
  {
  }

  // A file that cannot be read stays as it is: every run on it raises before it does anything.
  lemma {:induction false} StuckForEver(file: seq<Byte>, attempts: seq<Attempt>, n: nat)
    requires AllProper(attempts, n) && Decode(file).None?
    ensures RunOn(file, attempts, n) == file
    ensures forall k :: 0 <= k < |attempts| ==> After(RunOn(file, attempts[..k], n), attempts[k], n).rows == None
  {
    hide After, Proper, Decode;
    if attempts != [] {
      var before := attempts[..|attempts| - 1];
      StuckForEver(file, before, n);
      RaisesAtOnce(file, attempts[|attempts| - 1], n);
      forall k | 0 <= k < |attempts|
        ensures After(RunOn(file, attempts[..k], n), attempts[k], n).rows == None
      {
        if k < |before| {
          assert attempts[..k] == before[..k] && attempts[k] == before[k];
        }
      }
    }
  }

  // ---- Runs that finish ----

  // Everything the run writes reaches the disk.
  ghost predicate Undisturbed(file: seq<Byte>, a: Attempt, n: nat)
    requires Proper(a, n)
  {
    Decode(file).Some? ==>
      var text := Decode(file).value;
      var rows := Arrived(text, a, n);
      && AllTaken(rows, Rooms(text, a, n))
      && a.end.Some? && a.end.value >= |Encode(Join(Final(text, rows)))|
  }

  // What a run that finishes leaves out: behind a torn tail the first row that arrives, and the tail itself
  // where it was a whole row without its newline.
  ghost function Lost(text: string, arrived: seq<string>): set<nat>
  {
    if Spoils(text, arrived) then {Index(arrived[0])} + Indices(RowIn(Tail(text))) else {}
  }

  // A run finishes exactly on a readable file and undisturbed. It leaves the file in strict index order with every
  // question but the lost ones, and of every other one the row that was read before or has just arrived.
  lemma FinishedExact(file: seq<Byte>, a: Attempt, n: nat)
    requires Proper(a, n) && (Decode(file).Some? ==> Sound(Decode(file).value, n))
    ensures After(file, a, n).rows.Some? <==> Decode(file).Some? && Undisturbed(file, a, n)
    ensures After(file, a, n).rows.Some? ==>
              var text, after := Decode(file).value, After(file, a, n);
              var arrived, rows := Arrived(text, a, n), after.rows.value;
              && after.file == Encode(Join(rows)) && Rows(Join(rows)) == rows && Tail(Join(rows)) == ""
              && Ascending(rows) && Distinct(rows) && Sound(Join(rows), n)
              && Indices(rows) == Below(n) - Lost(text, arrived)
              && |Lost(text, arrived)| <= 2 && Lost(text, arrived) <= Below(n)
              && multiset(rows) == multiset(Kept(text, arrived)) + multiset(Added(text, arrived))
  {
    if Decode(file).None? {
      RaisesAtOnce(file, a, n);
    } else {
      ReadAfter(file, a, n);
      if After(file, a, n).rows.Some? {
        FinishedFile(file, a, n);
        FinalExact(Decode(file).value, a, n);
      }
    }
  }

  lemma FinishedFile(file: seq<Byte>, a: Attempt, n: nat)
    requires Proper(a, n) && Decode(file).Some? && Sound(Decode(file).value, n) && After(file, a, n).rows.Some?
    ensures After(file, a, n).file == Encode(Join(After(file, a, n).rows.value))
  {
    hide Encode, Decode, Join, Written, AllTaken, SortByIndex, Rows, Proper, Pending, Sound;
  }

  lemma FinalExact(text: string, a: Attempt, n: nat)
    requires Proper(a, n) && Sound(text, n)
    ensures var arrived := Arrived(text, a, n);
            var rows := Final(text, arrived);
            && Rows(Join(rows)) == rows && Tail(Join(rows)) == ""
            && Ascending(rows) && Distinct(rows) && Sound(Join(rows), n)
            && Indices(rows) == Below(n) - Lost(text, arrived)
            && |Lost(text, arrived)| <= 2 && Lost(text, arrived) <= Below(n)
            && multiset(rows) == multiset(Kept(text, arrived)) + multiset(Added(text, arrived))
  {
    hide *;
    var arrived := Arrived(text, a, n);
    var appended := Rows(text + Join(arrived));
    AppendedRows(text, a, n);
    FinalIs(text, arrived);
    SortKeeps(appended, n);
    RewrittenWhole(SortByIndex(appended), n);
    AttemptFits(text, a, n);
    LostExact(text, arrived, n);
    SortedParts(appended, Kept(text, arrived), Added(text, arrived));
  }

  lemma FinalIs(text: string, rows: seq<string>)
    ensures Final(text, rows) == SortByIndex(Rows(text + Join(rows)))
  {
  }

  lemma SortedParts(rows: seq<string>, kept: seq<string>, added: seq<string>)
    requires rows == kept + added
    ensures multiset(SortByIndex(rows)) == multiset(kept) + multiset(added)
  {
    SortSorts(rows);
  }

  lemma RewrittenWhole(rows: seq<string>, n: nat)
    requires AllRows(rows, n) && Distinct(rows)
    ensures Rows(Join(rows)) == rows && Tail(Join(rows)) == "" && Sound(Join(rows), n)
  {
    hide Rows, Tail, AllRows, Distinct, Join;
    var j := RewrittenRows(rows, |Join(rows)|, n);
    assert rows[..j] == rows && Upto(Join(rows), |Join(rows)|) == Join(rows);
  }

  lemma LostExact(text: string, arrived: seq<string>, n: nat)
    requires Distinct(Rows(text) + arrived) && Indices(Rows(text)) + Indices(arrived) == Below(n)
    ensures Spoils(text, arrived) ==> arrived != []
    ensures Indices(Kept(text, arrived) + Added(text, arrived)) == Below(n) - Lost(text, arrived)
    ensures |Lost(text, arrived)| <= 2 && Lost(text, arrived) <= Below(n)
  {
    RowsAre(text);
    TailRows(Tail(text));
    hide Rows, ClosedRows, RowIn, Tail, Distinct, Index, Indices;
    if Spoils(text, arrived) {
      TwoAtMost(Index(arrived[0]), Indices(RowIn(Tail(text))));
      assert [arrived[0]] + arrived[1..] == arrived;
      WithoutTwo(ClosedRows(text), RowIn(Tail(text)), arrived[0], arrived[1..]);
    } else {
      IndicesConcat(Rows(text), arrived);
    }
  }

  // Taking the tail and the first arrival out of a duplicate-free list takes out their indices.
  lemma WithoutTwo(closed: seq<string>, tail: seq<string>, first: string, others: seq<string>)
    requires Distinct((closed + tail) + ([first] + others))
    ensures Indices(closed + others) ==
            Indices(closed + tail) + Indices([first] + others) - ({Index(first)} + Indices(tail))
    ensures {Index(first)} + Indices(tail) <= Indices(closed + tail) + Indices([first] + others)
  {
    DistinctConcat(closed + tail, [first] + others);
    DistinctConcat(closed, tail);
    DistinctConcat([first], others);
    IndicesConcat(closed, tail);
    IndicesConcat([first], others);
    IndicesConcat(closed, others);
    OneRow(first);
    hide Indices, Index, Distinct;
  }

  lemma OneRow(row: string)
    ensures Indices([row]) == {Index(row)}
  {
    hide Index;
    assert row in [row];
  }

  lemma TailRows(line: string)
    ensures |Indices(RowIn(line))| <= 1
  {
    hide Strip, IndexOf, Index;
    if RowIn(line) != [] {
      OneRow(Strip(line));
    } else {
      assert Indices([]) == {};
    }
  }

  lemma TwoAtMost(i: nat, s: set<nat>)
    requires |s| <= 1
    ensures |{i} + s| <= 2
  {
    if i in s {
      assert {i} + s == s;
    }
  }

  // On a readable file without a torn tail one undisturbed run is enough.
  lemma FinishedOnClean(file: seq<Byte>, a: Attempt, n: nat)
    requires Proper(a, n) && Decode(file).Some? && Sound(Decode(file).value, n) && Tail(Decode(file).value) == ""
    requires Undisturbed(file, a, n)
    ensures var after := After(file, a, n);
            && after.rows.Some? && OneRowEach(after.rows.value, n)
            && (forall r :: r in Rows(Decode(file).value) ==> r in after.rows.value)
  {
    var text := Decode(file).value;
    var arrived := Arrived(text, a, n);
    NotSpoiled(text, arrived);
    hide *;
    FinishedExact(file, a, n);
    var rows := After(file, a, n).rows.value;
    OneEach(rows, Below(n), n);
    AllMembers(Rows(text), arrived, rows);
  }

  // Exactly one row per question, in order.
  ghost predicate OneRowEach(rows: seq<string>, n: nat)
  {
    |rows| == n && forall k :: 0 <= k < n ==> Index(rows[k]) == k
  }

  lemma OneEach(rows: seq<string>, numbers: set<nat>, n: nat)
    requires Ascending(rows) && Distinct(rows) && Indices(rows) == numbers - {} && numbers == Below(n)
    ensures OneRowEach(rows, n)
  {
    hide Ascending, Distinct, Indices, Index;
    assert numbers - {} == numbers;
    FullAscending(rows, n);
  }

  lemma NotSpoiled(text: string, rows: seq<string>)
    requires Tail(text) == ""
    ensures Lost(text, rows) == {} && !Spoils(text, rows) && Kept(text, rows) == Rows(text)
  {
  }

  lemma AllMembers(a: seq<string>, b: seq<string>, whole: seq<string>)
    requires multiset(whole) == multiset(a) + multiset(b)
    ensures forall r :: r in a ==> r in whole
  {
    forall r | r in a
      ensures r in whole
    {
      assert r in multiset(a) && r in multiset(whole);
    }
  }

  // Whatever came before, of two undisturbed runs the second ends with exactly one row per question, in order, and
  // every row of the first, exactly when nothing before them stopped inside a character. If
  // something did, neither of them gets anywhere.
  lemma TwoFinishedRuns(attempts: seq<Attempt>, first: Attempt, second: Attempt, n: nat)
    requires AllProper(attempts, n) && Proper(first, n) && Proper(second, n)
    requires Undisturbed(RunAll(attempts, n), first, n)
    requires Undisturbed(After(RunAll(attempts, n), first, n).file, second, n)
    ensures var once := After(RunAll(attempts, n), first, n);
            var twice := After(once.file, second, n);
            if NeverInside(attempts, n) then
              && once.rows.Some? && twice.rows.Some? && OneRowEach(twice.rows.value, n)
              && (forall r :: r in once.rows.value ==> r in twice.rows.value)
            else once == twice == Left(RunAll(attempts, n), None)
  {
    hide *;
    var file := RunAll(attempts, n);
    var once := After(file, first, n);
    AlwaysSound(attempts, n);
    if NeverInside(attempts, n) {
      FinishedExact(file, first, n);
      var rows := once.rows.value;
      DecodeEncode(Join(rows));
      FinishedOnClean(once.file, second, n);
    } else {
      RaisesAtOnce(file, first, n);
      RaisesAtOnce(file, second, n);
    }
  }
}
