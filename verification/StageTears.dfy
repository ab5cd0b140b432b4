// Which answers can leave a stage stuck, and runs that lose something: memory/benchmarks/run.py:1213-1308.
module StageTears {
  import opened Prelude
  import opened Decimal
  import opened RowText
  import opened StageText
  import opened StageLog
  import opened StageRuns
  import opened Utf8

  // ---- Cuts inside a character ----

  // Text without a character of several bytes cannot be cut inside one: a stage whose answers are all ASCII
  // never gets stuck.
  ghost predicate Ascii(s: string) { forall k :: 0 <= k < |s| ==> s[k] as int < 0x80 }

  ghost predicate AllAscii(rows: seq<string>) { forall k :: 0 <= k < |rows| ==> Ascii(rows[k]) }

  lemma {:induction false} AsciiLines(text: string)
    requires Ascii(text)
    ensures AllAscii(LinesOf(text))
  {
    if text != "" {
      var n := |text| - 1;
      AsciiLines(text[..n]);
    }
  }

  lemma {:induction false} AsciiStrip(s: string)
    requires Ascii(s)
    ensures Ascii(Strip(s))
  {
    if s != "" && IsSpace(s[0]) {
      AsciiStrip(s[1..]);
    }
  }

  lemma {:induction false} AsciiRows(lines: seq<string>)
    requires AllAscii(lines)
    ensures AllAscii(RowsIn(lines))
  {
    hide Ascii, Strip, IndexOf;
    if lines != [] {
      AsciiRows(lines[..|lines| - 1]);
      AsciiStrip(lines[|lines| - 1]);
    }
  }

  lemma {:induction false} AsciiJoin(rows: seq<string>)
    requires AllAscii(rows)
    ensures Ascii(Join(rows))
  {
    if rows != [] {
      AsciiJoin(rows[1..]);
      assert Ascii(rows[0]);
    }
  }

  lemma AsciiFinal(text: string, rows: seq<string>)
    requires Ascii(text) && AllAscii(rows)
    ensures Ascii(Join(Final(text, rows)))
  {
    var t := text + Join(rows);
    AsciiJoin(rows);
    assert Ascii(t);
    AsciiLines(t);
    AsciiRows(LinesOf(t));
    SortSorts(Rows(t));
    hide Ascii, Join, SortByIndex, Rows, Ascending;
    var sorted := SortByIndex(Rows(t));
    forall k | 0 <= k < |sorted|
      ensures Ascii(sorted[k])
    {
      assert sorted[k] in multiset(sorted) && sorted[k] in Rows(t);
    }
    AsciiJoin(sorted);
  }

  lemma {:induction false} AsciiWritten(rows: seq<string>, rooms: seq<nat>)
    requires |rows| == |rooms| && AllAscii(rows)
    ensures OnBoundaries(rows, rooms) && Ascii(WrittenText(rows, rooms))
  {
    hide OnBoundary, WholeChars;
    if rows != [] {
      AsciiWritten(rows[1..], rooms[1..]);
      assert Ascii(rows[0]);
      AsciiRow(rows[0], rooms[0]);
      BoundariesSplit(rows, rooms);
    }
  }

  lemma {:induction false} AsciiPending(text: string, answers: seq<string>, schedule: seq<nat>)
    requires AllAscii(answers) && forall k :: 0 <= k < |schedule| ==> schedule[k] < |answers|
    ensures AllAscii(Pending(text, answers, schedule))
  {
    hide Ascii, Done, ToString;
    if schedule != [] {
      AsciiPending(text, answers, schedule[..|schedule| - 1]);
    }
  }

  lemma AsciiStep(file: seq<Byte>, a: Attempt, n: nat)
    requires Proper(a, n) && Decode(file).Some? && Sound(Decode(file).value, n) && Ascii(Decode(file).value)
             && AllAscii(a.answers)
    ensures Unbroken(file, a, n) && Decode(After(file, a, n).file).Some? && Ascii(Decode(After(file, a, n).file).value)
  {
    var text := Decode(file).value;
    var rows, rooms := Arrived(text, a, n), Rooms(text, a, n);
    AsciiPending(text, a.answers, a.schedule);
    AsciiWritten(rows, rooms);
    AsciiFinal(text, rows);
    var sorted := Join(Final(text, rows));
    if a.end.Some? {
      AsciiOnBoundary(sorted, a.end.value);
    }
    ReadAfter(file, a, n);
    hide Decode, Sound, After, Arrived, Rooms, OnBoundary, OnBoundaries, WrittenText, WholeChars, AllTaken, Proper;
    hide AllAscii, Join;
  }

  lemma {:induction false} AsciiNeverInside(attempts: seq<Attempt>, n: nat)
    requires AllProper(attempts, n) && forall k :: 0 <= k < |attempts| ==> AllAscii(attempts[k].answers)
    ensures NeverInside(attempts, n) && Decode(RunAll(attempts, n)).Some? && Ascii(Decode(RunAll(attempts, n)).value)
  {
    hide After, Sound, Proper, Unbroken, Decode, AllAscii;
    AlwaysSound(attempts, n);
    if attempts == [] {
      EmptySound(n);
    } else {
      var before, last := attempts[..|attempts| - 1], attempts[|attempts| - 1];
      AsciiNeverInside(before, n);
      AlwaysSound(before, n);
      assert AllAscii(last.answers);
      AsciiStep(RunAll(before, n), last, n);
    }
  }

  // For a first run: some way of stopping its appends leaves a file that cannot be read exactly when one of its
  // answers has a character that is not ASCII.
  lemma FirstRunBreakable(a: Attempt, n: nat)
    requires Proper(a, n)
    ensures (exists rooms :: |rooms| == n && Stuck(a.(rooms := rooms, end := None), n)) <==>
            (exists i :: 0 <= i < n && !Ascii(a.answers[i]))
  {
    hide Decode, IsRow, After, Stuck, OnBoundary, Ascii;
    if i :| 0 <= i < n && !Ascii(a.answers[i]) {
      var w := RowBreaks(a.answers[i]);
      var rooms := seq(n, k => w);
      BrokenFirst(a.(rooms := rooms, end := None), n, i);
    }
    if rooms :| |rooms| == n && Stuck(a.(rooms := rooms, end := None), n) {
      var i := BrokenBy(a.(rooms := rooms, end := None), n);
      AsciiRow(a.answers[i], rooms[i]);
    }
  }

  ghost predicate Stuck(a: Attempt, n: nat)
  {
    Proper(a, n) && Decode(After([], a, n).file).None?
  }

  lemma RowBreaks(row: string) returns (w: nat)
    requires !Ascii(row)
    ensures !OnBoundary(row + "\n", w)
  {
    hide OnBoundary;
    var k :| 0 <= k < |row| && row[k] as int >= 0x80;
    assert (row + "\n")[k] == row[k];
    w := CutBeforeEnd(row + "\n", k);
  }

  lemma AsciiRow(row: string, w: nat)
    ensures Ascii(row) ==> OnBoundary(row + "\n", w)
  {
    hide OnBoundary;
    if Ascii(row) {
      AsciiOnBoundary(row + "\n", w);
    }
  }

  // Nothing is done yet when the file is empty.
  lemma {:induction false} AllPending<T>(values: seq<T>, schedule: seq<nat>, k: nat)
    requires k <= |schedule| && forall j :: 0 <= j < |schedule| ==> schedule[j] < |values|
    ensures var p := Pending("", values, schedule[..k]);
            |p| == k && forall j :: 0 <= j < k ==> p[j] == values[schedule[j]]
  {
    hide ToString, Rows;
    EmptyFile();
    assert Done("") == {};
    hide Done;
    if k > 0 {
      AllPending(values, schedule, k - 1);
      PendingStep("", values, schedule, k - 1);
    }
  }

  lemma FirstArrivals(a: Attempt, n: nat)
    requires Proper(a, n)
    ensures Decode([]) == Some("") && Sound("", n)
    ensures var rows, rooms := Arrived("", a, n), Rooms("", a, n);
            |rows| == |a.schedule| && forall j :: 0 <= j < |rows| ==>
            rows[j] == a.answers[a.schedule[j]] && rooms[j] == a.rooms[a.schedule[j]]
  {
    EmptySound(n);
    AllPending(a.answers, a.schedule, |a.schedule|);
    AllPending(a.rooms, a.schedule, |a.schedule|);
    assert a.schedule[..|a.schedule|] == a.schedule;
  }

  lemma BrokenFirst(a: Attempt, n: nat, i: nat)
    requires Proper(a, n) && i < n && !OnBoundary(a.answers[i] + "\n", a.rooms[i])
    ensures Stuck(a, n)
  {
    hide Decode, IsRow, After, OnBoundary, OnBoundaries, Unbroken, Sound, Stuck, Arrived, Rooms;
    FirstArrivals(a, n);
    var j := PlaceOf(a.schedule, i);
    BrokenAt(Arrived("", a, n), Rooms("", a, n), j);
    if Unbroken([], a, n) {
      UnbrokenMeans([], a, n);
    }
    StepSound([], a, n);
    StuckIs(a, n);
  }

  lemma PlaceOf(schedule: seq<nat>, i: nat) returns (j: nat)
    requires i in schedule
    ensures j < |schedule| && schedule[j] == i
  {
    j :| 0 <= j < |schedule| && schedule[j] == i;
  }

  lemma BrokenAt(rows: seq<string>, rooms: seq<nat>, j: nat)
    requires |rows| == |rooms| && j < |rows| && !OnBoundary(rows[j] + "\n", rooms[j])
    ensures !OnBoundaries(rows, rooms)
  {
    hide OnBoundary;
  }

  lemma UnbrokenMeans(file: seq<Byte>, a: Attempt, n: nat)
    requires Proper(a, n) && Decode(file).Some? && Unbroken(file, a, n)
    ensures OnBoundaries(Arrived(Decode(file).value, a, n), Rooms(Decode(file).value, a, n))
  {
    hide Decode, Arrived, Rooms;
  }

  lemma StuckIs(a: Attempt, n: nat)
    requires Proper(a, n)
    ensures Stuck(a, n) <==> Decode(After([], a, n).file).None?
  {
  }

  lemma BrokenBy(a: Attempt, n: nat) returns (i: nat)
    requires Stuck(a, n) && a.end.None?
    ensures i < n && !OnBoundary(a.answers[i] + "\n", a.rooms[i])
  {
    FirstArrivals(a, n);
    StepSound([], a, n);
    hide Decode, OnBoundary, After, Arrived, Rooms, IsRow, Sound, AllTaken;
    var rows, rooms := Arrived("", a, n), Rooms("", a, n);
    var j :| 0 <= j < |rows| && !OnBoundary(rows[j] + "\n", rooms[j]);
    i := a.schedule[j];
  }

  // A row with one field behind the index, of one character.
  function SmallRow(index: nat, c: char): string { HEAD + ToString(index) + "," + "\"q\":\"" + [c] + "\"}" }

  lemma SmallRowIs(index: nat, c: char)
    requires c >= ' ' && c != '"' && c != '\\'
    ensures IsRow(SmallRow(index, c), index)
  {
    var digits := ToString(index);
    var a, b := HEAD + digits + ",", "\"q\":\"";
    var row := a + b + [c] + "\"}";
    assert row == SmallRow(index, c);
    HeadScan();
    DigitsScan(digits);
    ScanConcat(Start, HEAD, digits);
    CommaScan(HEAD + digits);
    FieldScan(c);
    ScanConcat(Start, a, b + [c] + "\"}");
    assert row == a + (b + [c] + "\"}");
    hide Scan;
    forall k | 0 <= k < |row|
      ensures row[k] >= ' '
    {
      if |HEAD| <= k < |HEAD| + |digits| {
        assert row[k] == digits[k - |HEAD|];
        assert IsDigit(digits[k - |HEAD|]);
      }
    }
    assert a <= row;
  }

  lemma HeadScan()
    ensures Scan(Start, HEAD) == Between(0)
  {
    ScanOne(Start, HEAD);
    ScanOne(Between(0), HEAD[1..]);
    var index := "index\":";
    assert HEAD[1..][1..] == index;
    ScanOne(Inside(0), index);
    ScanOne(Inside(0), index[1..]);
    ScanOne(Inside(0), index[1..][1..]);
    ScanOne(Inside(0), index[1..][1..][1..]);
    ScanOne(Inside(0), index[1..][1..][1..][1..]);
    ScanOne(Inside(0), index[1..][1..][1..][1..][1..]);
    ScanOne(Behind(0), index[1..][1..][1..][1..][1..][1..]);
  }

  lemma {:induction false} DigitsScan(s: string)
    requires AllDigits(s)
    ensures Scan(Between(0), s) == Between(0)
  {
    if s != "" {
      DigitsScan(s[..|s| - 1]);
    }
  }

  lemma CommaScan(s: string)
    requires Scan(Start, s) == Between(0)
    ensures Scan(Start, s + ",") == Between(0)
  {
    assert (s + ",")[..|s|] == s;
  }

  lemma FieldScan(c: char)
    requires c >= ' ' && c != '"' && c != '\\'
    ensures Scan(Between(0), "\"q\":\"" + [c] + "\"}") == Closed
  {
    var s := "\"q\":\"" + [c] + "\"}";
    ScanOne(Between(0), s);
    ScanOne(Inside(0), s[1..]);
    ScanOne(Inside(0), s[1..][1..]);
    ScanOne(Behind(0), s[1..][1..][1..]);
    ScanOne(Between(0), s[1..][1..][1..][1..]);
    ScanOne(Inside(0), s[1..][1..][1..][1..][1..]);
    ScanOne(Inside(0), s[1..][1..][1..][1..][1..][1..]);
    ScanOne(Behind(0), s[1..][1..][1..][1..][1..][1..][1..]);
  }

  // A run that is killed inside an e with an acute accent leaves a file on which every later run raises at once,
  // so that none ever finishes.
  lemma CutInsideCharacter(later: seq<Attempt>) returns (a: Attempt)
    requires AllProper(later, 1)
    ensures Proper(a, 1) && a.answers == [SmallRow(0, 0xE9 as char)]
    ensures var file := After([], a, 1).file;
            Decode(file).None? && RunOn(file, later, 1) == file
            && (forall k :: 0 <= k < |later| ==> After(RunOn(file, later[..k], 1), later[k], 1).rows == None)
  {
    var c := 0xE9 as char;
    var row := SmallRow(0, c);
    SmallRowIs(0, c);
    var tail := |row| - 3;
    assert row[tail] == c;
    assert (row + "\n")[tail] == c;
    var w := CutBeforeEnd(row + "\n", tail);
    a := Attempt([row], [w], [0], None);
    hide IsRow, OnBoundary, SmallRow, Decode;
    BrokenFirst(a, 1, 0);
    StuckForEver(After([], a, 1).file, later, 1);
  }

  // ---- Two questions lost ----

  // Of two questions: the first run is killed before the newline of question 0, the second finishes and
  // returns no row at all. It lost the row that was there and the one it appended.
  lemma LosesBoth(row0: string, row1: string) returns (first: Attempt, second: Attempt)
    requires IsRow(row0, 0) && IsRow(row1, 1)
    ensures Proper(first, 2) && Proper(second, 2) && first.answers == second.answers == [row0, row1]
    ensures var file := RunAll([first], 2);
            && Decode(file) == Some(row0) && Lost(row0, Arrived(row0, second, 2)) == {0, 1}
            && After(file, second, 2).rows == Some([])
  {
    first := Attempt([row0, row1], [|Encode(row0)|, 0], [0, 1], None);
    var room0, room1 := |Encode(row0 + "\n")|, |Encode(row1 + "\n")|;
    second := Attempt([row0, row1], [room0, room1], [0, 1], Some(0));
    hide IsRow, Encode, Decode, IndexOf;
    BareRow(first, row0, row1);
    RunOnce(first, 2);
    var file := RunAll([first], 2);
    SecondAppends(row0, row1, second);
    AloneSound(row0);
    FinishesEmpty(file, second, row0, row1);
  }

  lemma RunOnce(a: Attempt, n: nat)
    requires Proper(a, n)
    ensures RunAll([a], n) == After([], a, n).file
  {
    hide After, Proper;
    assert [a][..0] == [] && RunOn([], [], n) == [];
    assert [a][|[a]| - 1] == a;
  }

  // A killed run on a readable file leaves what it appended.
  lemma KilledRun(file: seq<Byte>, a: Attempt, n: nat)
    requires Proper(a, n) && Decode(file).Some? && a.end.None?
    ensures After(file, a, n).file == file + Written(Arrived(Decode(file).value, a, n), Rooms(Decode(file).value, a, n))
  {
    hide Decode, Pending, Written, AllTaken, Proper;
  }

  lemma BareRow(a: Attempt, row0: string, row1: string)
    requires Proper(a, 2) && a == Attempt([row0, row1], [|Encode(row0)|, 0], [0, 1], None)
    ensures After([], a, 2).file == Encode(row0) && Decode(Encode(row0)) == Some(row0)
  {
    hide *;
    DecodeEncode(row0);
    FirstArrivals(a, 2);
    KilledRun([], a, 2);
    var rows, rooms := Arrived("", a, 2), Rooms("", a, 2);
    assert rows == [row0, row1] && rooms == [|Encode(row0)|, 0];
    EncodeConcat(row0, "\n");
    WrittenTwo(row0 + "\n", row1 + "\n", |Encode(row0)|);
    assert (row0 + "\n")[..|row0|] == row0 && (row1 + "\n")[..|row1|] == row1;
    assert [] + Encode(row0) == Encode(row0) == (Encode(row0) + Encode("\n"))[..|Encode(row0)|];
  }

  lemma WrittenTwo(line0: string, line1: string, room: nat)
    requires |line0| > 0 && |line1| > 0 && line0[|line0| - 1] == line1[|line1| - 1] == '\n'
    requires room <= |Encode(line0)|
    ensures Written([line0[..|line0| - 1], line1[..|line1| - 1]], [room, 0]) == Encode(line0)[..room]
  {
    hide Encode;
    assert line0[..|line0| - 1] + "\n" == line0 && line1[..|line1| - 1] + "\n" == line1;
    var a, b := line0[..|line0| - 1], line1[..|line1| - 1];
    assert [a, b][1..] == [b] && [room, 0][1..] == [0] && [b][1..] == [] && [0][1..] == [];
    assert Written([b], [0]) == [];
  }

  // A row alone in a file without its newline is read.
  lemma AloneRow(row: string)
    requires IsRow(row, 0)
    ensures Tail(row) == row && ClosedRows(row) == [] && RowIn(row) == [row] && Rows(row) == [row] && OpenBrace(row)
  {
    RowHead(row, 0);
    RowReadBack(row, 0);
    EmptyFile();
    RowsAre("");
    AppendPiece("", row);
    RowsAre(row);
    hide IsRow, IndexOf, Strip, Rows, ClosedRows, Tail;
    assert "" + row == row;
    assert ClosedRows("") == [] && RowIn(row) == [row];
  }

  lemma AloneSound(row: string)
    requires IsRow(row, 0)
    ensures Sound(row, 2)
  {
    AloneRow(row);
    RowReadBack(row, 0);
    SoundIs(row, 2);
    hide IsRow, IndexOf, Rows, Tail, Sound;
  }

  lemma AloneDone(row: string)
    requires IsRow(row, 0)
    ensures ToString(0) in Done(row) && ToString(1) !in Done(row)
  {
    AloneRow(row);
    AnswerIndex(row, 0);
    IsDone(row, 0);
    IsDone(row, 1);
    hide *;
  }

  lemma {:induction false} PendingTwo<T>(text: string, values: seq<T>)
    requires |values| == 2 && ToString(0) in Done(text) && ToString(1) !in Done(text)
    ensures Pending(text, values, [0, 1]) == [values[1]]
  {
    hide Done, ToString;
    var schedule: seq<nat> := [0, 1];
    assert schedule[..0] == [] && schedule[..1] == [0] && schedule[..2] == schedule;
    PendingStep(text, values, schedule, 0);
    PendingStep(text, values, schedule, 1);
    assert Pending(text, values, schedule[..0]) == [];
  }

  lemma SecondAppends(row0: string, row1: string, a: Attempt)
    requires Proper(a, 2) && a.answers == [row0, row1] && a.schedule == [0, 1]
    requires IsRow(row0, 0) && IsRow(row1, 1)
    ensures Arrived(row0, a, 2) == [row1] && Rooms(row0, a, 2) == [a.rooms[1]]
    ensures Lost(row0, [row1]) == {0, 1}
  {
    AloneDone(row0);
    PendingTwo(row0, a.answers);
    PendingTwo(row0, a.rooms);
    AloneRow(row0);
    AnswerIndex(row0, 0);
    AnswerIndex(row1, 1);
    RowHead(row0, 0);
    hide Rows, Index, IsRow, Done, ToString, Tail, Pending, RowIn, Indices, Proper;
  }

  lemma FinishesEmpty(file: seq<Byte>, a: Attempt, row0: string, row1: string)
    requires Proper(a, 2) && Decode(file) == Some(row0) && Sound(row0, 2)
    requires Arrived(row0, a, 2) == [row1] && Rooms(row0, a, 2) == [|Encode(row1 + "\n")|]
    requires Lost(row0, [row1]) == {0, 1} && a.end == Some(0)
    ensures After(file, a, 2).rows == Some([])
  {
    hide *;
    FinalExact(row0, a, 2);
    ReadAfter(file, a, 2);
    NoIndices(Final(row0, [row1]));
    JoinNone();
    TakenOne(row1);
  }

  lemma NoIndices(rows: seq<string>)
    requires Indices(rows) == Below(2) - {0, 1} && Distinct(rows)
    ensures rows == []
  {
    hide Index;
    DistinctByCount(rows);
    assert Indices(rows) == {};
  }

  lemma JoinNone()
    ensures |Encode(Join([]))| == 0
  {
  }

  lemma TakenOne(row: string)
    ensures AllTaken([row], [|Encode(row + "\n")|])
  {
  }
}
