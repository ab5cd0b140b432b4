// The append-only artifact of a stage: memory/benchmarks/run.py:1213-1308, filled by run_search_phase at
// memory/benchmarks/run.py:1623-1645 (the answer and judge stages do the same).
module StageText {
  import opened RowText
  import opened Utf8

  // ---- Lines ----

  // The lines of a file; the last one is what stands behind the last newline.
  function LinesOf(text: string): (lines: seq<string>)
    ensures lines != []
  {
    if text == "" then [""]
    else
      var n := |text| - 1;
      var before := LinesOf(text[..n]);
      if text[n] == '\n' then before + [""]
      else before[..|before| - 1] + [before[|before| - 1] + [text[n]]]
  }

  function Tail(text: string): string { LinesOf(text)[|LinesOf(text)| - 1] }

  // The row in a line, stripped; blank and unreadable lines give none.
  function RowIn(line: string): seq<string>
  {
    if IndexOf(Strip(line)).Some? then [Strip(line)] else []
  }

  function RowsIn(lines: seq<string>): (rows: seq<string>)
    ensures forall r :: r in rows ==> IndexOf(r).Some?
  {
    if lines == [] then [] else RowsIn(lines[..|lines| - 1]) + RowIn(lines[|lines| - 1])
  }

  // What a tolerant read gives, in file order.
  function Rows(text: string): seq<string> { RowsIn(LinesOf(text)) }

  // The part of it that stands before the last newline.
  function ClosedRows(text: string): seq<string> { RowsIn(LinesOf(text)[..|LinesOf(text)| - 1]) }

  function Index(row: string): nat
  {
    if IndexOf(row).Some? then IndexOf(row).value else 0
  }

  ghost function Indices(rows: seq<string>): set<nat> { set r | r in rows :: Index(r) }

  ghost predicate Distinct(rows: seq<string>)
  {
    forall i, j :: 0 <= i < j < |rows| ==> Index(rows[i]) != Index(rows[j])
  }

  ghost predicate AllRows(rows: seq<string>, n: nat)
  {
    forall k :: 0 <= k < |rows| ==> IsRow(rows[k], Index(rows[k])) && Index(rows[k]) < n
  }

  lemma RowsAre(text: string)
    ensures Rows(text) == ClosedRows(text) + RowIn(Tail(text))
  {
  }

  lemma BlankRow()
    ensures RowIn("") == []
  {
    assert Strip("") == "";
  }

  // A row is read as itself whatever blanks stand around it in its line.
  lemma RowAmongBlanks(before: string, row: string, after: string)
    requires Blanks(before) && Blanks(after) && IsRow(row, Index(row))
    ensures RowIn(before + row + after) == [row]
  {
    RowReadBack(row, Index(row));
    hide IsRow, IndexOf;
    RowEnds(row, Index(row));
    StripsBlanks(before, row, after);
  }

  lemma RowEnds(row: string, index: nat)
    requires IsRow(row, index)
    ensures row != "" && !IsSpace(row[0]) && !IsSpace(row[|row| - 1])
  {
    hide IndexOf, Scan;
  }

  // ---- Appending ----

  lemma {:induction false} AppendPiece(text: string, piece: string)
    requires forall k :: 0 <= k < |piece| ==> piece[k] != '\n'
    ensures Tail(text + piece) == Tail(text) + piece && ClosedRows(text + piece) == ClosedRows(text)
  {
    hide Tail, ClosedRows, LinesOf;
    if piece == "" {
      assert text + piece == text;
    } else {
      var n := |piece| - 1;
      var t := text + piece;
      AppendPiece(text, piece[..n]);
      assert t[..|t| - 1] == text + piece[..n];
      LastCharacter(t);
      assert Tail(text) + piece[..n] + [piece[n]] == Tail(text) + piece;
    }
  }

  lemma LastCharacter(t: string)
    requires t != "" && t[|t| - 1] != '\n'
    ensures Tail(t) == Tail(t[..|t| - 1]) + [t[|t| - 1]] && ClosedRows(t) == ClosedRows(t[..|t| - 1])
  {
    var before := LinesOf(t[..|t| - 1]);
    assert LinesOf(t)[..|before| - 1] == before[..|before| - 1];
  }

  lemma AppendNewline(text: string)
    ensures Tail(text + "\n") == "" && ClosedRows(text + "\n") == Rows(text) == Rows(text + "\n")
  {
    var t := text + "\n";
    assert t[..|t| - 1] == text;
    assert LinesOf(t) == LinesOf(text) + [""];
    assert LinesOf(t)[..|LinesOf(t)| - 1] == LinesOf(text);
    BlankRow();
  }

  function Join(rows: seq<string>): string
  {
    if rows == [] then "" else rows[0] + "\n" + Join(rows[1..])
  }

  // Behind a newline every row that is written whole is read, and a piece of one is not.
  lemma AppendToClosed(text: string, row: string, m: nat)
    requires Tail(text) == "" && IsRow(row, Index(row)) && m <= |row|
    ensures var t := text + row[..m];
            ClosedRows(t) == Rows(text) && Tail(t) == row[..m]
            && Rows(t) == Rows(text) + if m == |row| then [row] else []
  {
    var piece := row[..m];
    AppendPiece(text, piece);
    RowsAre(text);
    RowsAre(text + piece);
    BlankRow();
    if m == |row| {
      assert piece == row;
      RowReadBack(row, Index(row));
    } else {
      TornRowUnread(row, Index(row), m);
    }
  }

  // Behind the remains of a row nothing is read up to the next newline, and the remains are not read any more.
  lemma AppendToTorn(text: string, row: string, m: nat)
    requires Tail(text) != "" && Tail(text)[0] == '{' && IsRow(row, Index(row)) && 0 < m <= |row|
    ensures var t := text + row[..m];
            Rows(t) == ClosedRows(t) == ClosedRows(text) && Tail(t) != "" && Tail(t)[0] == '{'
  {
    var piece := row[..m];
    AppendPiece(text, piece);
    RowsAre(text + piece);
    GluedRowUnread(Tail(text), row, Index(row), m);
  }

  lemma JoinStep(rows: seq<string>, w: nat)
    requires rows != []
    ensures w <= |rows[0]| ==> Upto(Join(rows), w) == rows[0][..w]
    ensures w > |rows[0]| ==> Upto(Join(rows), w) == rows[0] + "\n" + Upto(Join(rows[1..]), w - |rows[0]| - 1)
    ensures w >= |Join(rows)| ==> w > |rows[0]| && w - |rows[0]| - 1 >= |Join(rows[1..])|
  {
    var line := rows[0] + "\n";
    assert Join(rows) == line + Join(rows[1..]);
    assert w > |rows[0]| ==> w >= |line|;
  }

  predicate OpenBrace(s: string) { s == "" || s[0] == '{' }

  // Rows appended behind a newline, the writing cut short anywhere: all rows before the cut are read.
  lemma {:induction false} AppendClean(text: string, rows: seq<string>, w: nat, n: nat) returns (j: nat)
    requires Tail(text) == "" && AllRows(rows, n)
    ensures var t := text + Upto(Join(rows), w);
            && j <= |rows| && Rows(t) == Rows(text) + rows[..j] && OpenBrace(Tail(t))
            && (w >= |Join(rows)| ==> j == |rows| && Tail(t) == "")
    decreases |rows|
  {
    hide Rows, Tail, ClosedRows, IsRow, Index;
    if rows == [] {
      j := 0;
      assert text + Upto(Join(rows), w) == text;
    } else {
      var row := rows[0];
      JoinStep(rows, w);
      if w <= |row| {
        j := if w == |row| then 1 else 0;
        AppendToClosed(text, row, w);
        RowHead(row, Index(row));
      } else {
        AppendToClosed(text, row, |row|);
        assert row[..|row|] == row;
        AppendNewline(text + row);
        hide Join, Upto;
        var i := AppendClean(text + row + "\n", rows[1..], w - |row| - 1, n);
        j := i + 1;
        assert text + Upto(Join(rows), w) == text + row + "\n" + Upto(Join(rows[1..]), w - |row| - 1);
        assert Rows(text) + [row] + rows[1..][..i] == Rows(text) + rows[..j];
      }
    }
  }

  // Rows appended whole behind the remains of one: the remains and the first row are gone.
  lemma AppendDirty(text: string, rows: seq<string>, n: nat)
    requires Tail(text) != "" && Tail(text)[0] == '{' && AllRows(rows, n) && rows != []
    ensures var t := text + Join(rows);
            Rows(t) == ClosedRows(text) + rows[1..] && Tail(t) == ""
  {
    hide Rows, Tail, ClosedRows, IsRow;
    var row, others := rows[0], rows[1..];
    RowHead(row, Index(row));
    AppendToTorn(text, row, |row|);
    assert row[..|row|] == row;
    AppendNewline(text + row);
    var i := AppendClean(text + row + "\n", others, |Join(others)|, n);
    assert text + Join(rows) == text + row + "\n" + Join(others);
    assert others[..i] == others && Upto(Join(others), |Join(others)|) == Join(others);
  }

  // So many characters of one line, behind whatever the file ends in: the row is read only when it is
  // complete and stands behind a newline, and remains in front of it are not read any more.
  lemma PieceStep(text: string, row: string, m: nat)
    requires OpenBrace(Tail(text)) && IsRow(row, Index(row)) && m <= |row| + 1
    ensures var t := text + (row + "\n")[..m];
            && OpenBrace(Tail(t)) && (m == |row| + 1 ==> Tail(t) == "")
            && Rows(t) ==
               if m == 0 then Rows(text)
               else if Tail(text) != "" then ClosedRows(text)
               else Rows(text) + if m >= |row| then [row] else []
  {
    hide Rows, Tail, ClosedRows, IsRow, Index;
    var line := row + "\n";
    RowHead(row, Index(row));
    if m == 0 {
      assert text + line[..0] == text;
    } else if m <= |row| {
      assert line[..m] == row[..m];
      PieceInRow(text, row, m);
    } else {
      assert line[..m] == line && text + line == text + row + "\n" && row[..|row|] == row;
      PieceInRow(text, row, |row|);
      AppendNewline(text + row);
    }
  }

  lemma PieceInRow(text: string, row: string, m: nat)
    requires OpenBrace(Tail(text)) && IsRow(row, Index(row)) && 0 < m <= |row| && row[0] == '{'
    ensures var t := text + row[..m];
            && OpenBrace(Tail(t))
            && Rows(t) == if Tail(text) != "" then ClosedRows(text) else Rows(text) + if m >= |row| then [row] else []
  {
    hide Rows, Tail, ClosedRows, IsRow, Index;
    if Tail(text) == "" {
      AppendToClosed(text, row, m);
    } else {
      AppendToTorn(text, row, m);
    }
  }

  // ---- Sorting ----

  predicate Ascending(rows: seq<string>)
  {
    forall i, j :: 0 <= i < j < |rows| ==> Index(rows[i]) <= Index(rows[j])
  }

  // Behind every row of the same or a smaller index: sorted() is stable.
  function InsertByIndex(rows: seq<string>, row: string): seq<string>
  {
    if rows == [] || Index(rows[|rows| - 1]) <= Index(row) then rows + [row]
    else InsertByIndex(rows[..|rows| - 1], row) + [rows[|rows| - 1]]
  }

  function SortByIndex(rows: seq<string>): seq<string>
  {
    if rows == [] then [] else InsertByIndex(SortByIndex(rows[..|rows| - 1]), rows[|rows| - 1])
  }

  lemma {:induction false} InsertPermutes(rows: seq<string>, row: string)
    ensures multiset(InsertByIndex(rows, row)) == multiset(rows) + multiset{row}
  {
    hide Index;
    if rows != [] && Index(rows[|rows| - 1]) > Index(row) {
      var before := rows[..|rows| - 1];
      assert rows == before + [rows[|rows| - 1]];
      InsertPermutes(before, row);
    }
  }

  lemma {:induction false} InsertAscending(rows: seq<string>, row: string)
    requires Ascending(rows)
    ensures Ascending(InsertByIndex(rows, row))
  {
    hide Index;
    if rows != [] && Index(rows[|rows| - 1]) > Index(row) {
      var before, last := rows[..|rows| - 1], rows[|rows| - 1];
      InsertAscending(before, row);
      var r := InsertByIndex(before, row);
      forall k | 0 <= k < |r|
        ensures Index(r[k]) <= Index(last)
      {
        InsertMembers(before, row, r[k]);
      }
    } else if rows != [] {
      assert forall k :: 0 <= k < |rows| - 1 ==> Index(rows[k]) <= Index(rows[|rows| - 1]);
    }
  }

  lemma InsertMembers(rows: seq<string>, row: string, x: string)
    requires x in InsertByIndex(rows, row)
    ensures x in rows || x == row
  {
    hide InsertByIndex;
    InsertPermutes(rows, row);
    assert x in multiset(InsertByIndex(rows, row));
  }

  lemma {:induction false} SortSorts(rows: seq<string>)
    ensures multiset(SortByIndex(rows)) == multiset(rows) && Ascending(SortByIndex(rows))
  {
    hide Index, InsertByIndex;
    if rows != [] {
      var n := |rows| - 1;
      assert rows == rows[..n] + [rows[n]];
      SortSorts(rows[..n]);
      InsertPermutes(SortByIndex(rows[..n]), rows[n]);
      InsertAscending(SortByIndex(rows[..n]), rows[n]);
    }
  }

  // A list has as many indices as rows exactly when they are distinct.
  lemma {:induction false} DistinctByCount(rows: seq<string>)
    ensures |Indices(rows)| <= |rows|
    ensures Distinct(rows) <==> |Indices(rows)| == |rows|
  {
    hide Index;
    if rows != [] {
      var n := |rows| - 1;
      var before, last := rows[..n], rows[n];
      DistinctByCount(before);
      IndicesGrow(before, last);
      assert rows == before + [last];
      assert Distinct(rows) <==> Distinct(before) && forall k :: 0 <= k < n ==> Index(before[k]) != Index(last);
      assert Index(last) in Indices(before) <==> exists k :: 0 <= k < n && Index(before[k]) == Index(last);
    }
  }

  lemma IndicesGrow(rows: seq<string>, row: string)
    ensures Indices(rows + [row]) == Indices(rows) + {Index(row)}
  {
    hide Index;
    assert forall r :: r in rows + [row] <==> r in rows || r == row;
  }

  lemma SortKeeps(rows: seq<string>, n: nat)
    ensures |SortByIndex(rows)| == |rows| && Indices(SortByIndex(rows)) == Indices(rows)
    ensures Ascending(SortByIndex(rows)) && (Distinct(rows) ==> Distinct(SortByIndex(rows)))
    ensures AllRows(rows, n) ==> AllRows(SortByIndex(rows), n)
  {
    var r := SortByIndex(rows);
    SortSorts(rows);
    hide Index, IsRow, SortByIndex;
    assert |multiset(r)| == |multiset(rows)|;
    assert forall x :: x in r <==> x in multiset(r);
    assert forall x :: x in rows <==> x in multiset(rows);
    DistinctByCount(rows);
    DistinctByCount(r);
    if AllRows(rows, n) {
      forall k | 0 <= k < |r|
        ensures IsRow(r[k], Index(r[k])) && Index(r[k]) < n
      {
        assert r[k] in rows;
      }
    }
  }

  function Below(n: nat): (r: set<nat>)
    ensures forall i :: i in r <==> 0 <= i < n
    ensures |r| == n
  {
    if n == 0 then {} else Below(n - 1) + {n - 1}
  }

  // An ascending list with each index below n once has index k at place k.
  lemma FullAscending(rows: seq<string>, n: nat)
    requires Ascending(rows) && Distinct(rows) && Indices(rows) == Below(n)
    ensures |rows| == n && forall k :: 0 <= k < n ==> Index(rows[k]) == k
  {
    DistinctByCount(rows);
    forall k | 0 <= k < n
      ensures Index(rows[k]) == k
    {
      NotBelow(rows, k);
      NotAbove(rows, n, k);
    }
  }

  lemma {:induction false} NotBelow(rows: seq<string>, k: nat)
    requires Ascending(rows) && Distinct(rows) && k < |rows|
    ensures Index(rows[k]) >= k
  {
    hide Index;
    if k > 0 {
      NotBelow(rows, k - 1);
      assert Index(rows[k - 1]) != Index(rows[k]);
    }
  }

  lemma {:induction false} NotAbove(rows: seq<string>, n: nat, k: nat)
    requires Ascending(rows) && Distinct(rows) && Indices(rows) == Below(n) && |rows| == n && k < n
    ensures Index(rows[k]) <= k
    decreases n - k
  {
    hide Index;
    assert rows[k] in rows && Index(rows[k]) in Indices(rows);
    if k < n - 1 {
      NotAbove(rows, n, k + 1);
      assert Index(rows[k]) != Index(rows[k + 1]);
    }
  }
}

module StageLog {
  import opened Prelude
  import opened Decimal
  import opened RowText
  import opened StageText
  import opened Utf8

  // The keys a resume takes for finished, as strings.
  ghost function Done(text: string): set<string> { set r | r in Rows(text) :: ToString(Index(r)) }

  // The values of the questions that are not done yet, in the order in which those complete.
  ghost function Pending<T>(text: string, values: seq<T>, schedule: seq<nat>): seq<T>
    requires forall k :: 0 <= k < |schedule| ==> schedule[k] < |values|
  {
    if schedule == [] then []
    else
      var n := |schedule| - 1;
      Pending(text, values, schedule[..n]) + if ToString(schedule[n]) in Done(text) then [] else [values[schedule[n]]]
  }

  // What goes to the disk of rows appended one after the other, so many bytes of each.
  function Written(rows: seq<string>, rooms: seq<nat>): seq<Byte>
    requires |rows| == |rooms|
  {
    if rows == [] then [] else Upto(Encode(rows[0] + "\n"), rooms[0]) + Written(rows[1..], rooms[1..])
  }

  // No append failed.
  predicate AllTaken(rows: seq<string>, rooms: seq<nat>)
    requires |rows| == |rooms|
  {
    forall k :: 0 <= k < |rows| ==> rooms[k] >= |Encode(rows[k] + "\n")|
  }

  // The file a run leaves, and its rows when it ends well.
  datatype Left = Left(file: seq<Byte>, rows: Option<seq<string>>)

  // The rewrite in index order, of which the disk takes so many bytes.
  function Rewritten(file: seq<Byte>, room: nat): Left
  {
    match Decode(file)
    case None => Left(file, None)
    case Some(text) =>
      var rows := SortByIndex(Rows(text));
      var sorted := Encode(Join(rows));
      Left(Upto(sorted, room), if room >= |sorted| then Some(rows) else None)
  }

  // A run of the stage: `rooms` is how many bytes of each question's line are written, and `end` how many
  // of the rewrite, None when the process is killed before it.
  ghost function Ran(file: seq<Byte>, answers: seq<string>, rooms: seq<nat>, schedule: seq<nat>, end: Option<nat>): Left
    requires |rooms| == |answers| && forall k :: 0 <= k < |schedule| ==> schedule[k] < |answers|
  {
    match Decode(file)
    case None => Left(file, None)
    case Some(text) =>
      PendingAlike(text, answers, rooms, schedule);
      var rows, taken := Pending(text, answers, schedule), Pending(text, rooms, schedule);
      var appended := file + Written(rows, taken);
      if !AllTaken(rows, taken) || end.None? then Left(appended, None) else Rewritten(appended, end.value)
  }

  lemma {:induction false} PendingAlike<S, T>(text: string, a: seq<S>, b: seq<T>, schedule: seq<nat>)
    requires |a| == |b| && forall k :: 0 <= k < |schedule| ==> schedule[k] < |a|
    ensures |Pending(text, a, schedule)| == |Pending(text, b, schedule)|
  {
    hide Done, ToString;
    if schedule != [] {
      PendingAlike(text, a, b, schedule[..|schedule| - 1]);
    }
  }

  lemma PendingStep<T>(text: string, values: seq<T>, schedule: seq<nat>, k: nat)
    requires k < |schedule| && forall j :: 0 <= j < |schedule| ==> schedule[j] < |values|
    ensures Pending(text, values, schedule[..k + 1]) ==
            if ToString(schedule[k]) in Done(text) then Pending(text, values, schedule[..k])
            else Pending(text, values, schedule[..k]) + [values[schedule[k]]]
  {
    hide Done, ToString;
    assert schedule[..k + 1][..k] == schedule[..k];
  }

  lemma {:induction false} JoinMore(rows: seq<string>, row: string)
    ensures Join(rows + [row]) == Join(rows) + row + "\n"
  {
    if rows == [] {
      assert [row][1..] == [] && rows + [row] == [row];
    } else {
      JoinMore(rows[1..], row);
      assert (rows + [row])[1..] == rows[1..] + [row];
    }
  }

  lemma {:induction false} WrittenMore(rows: seq<string>, rooms: seq<nat>, row: string, room: nat)
    requires |rows| == |rooms|
    ensures Written(rows + [row], rooms + [room]) == Written(rows, rooms) + Upto(Encode(row + "\n"), room)
    ensures AllTaken(rows + [row], rooms + [room]) <==> AllTaken(rows, rooms) && room >= |Encode(row + "\n")|
  {
    hide Encode, Upto;
    if rows == [] {
      assert [row][1..] == [] && [room][1..] == [] && rows + [row] == [row] && rooms + [room] == [room];
      assert Written([row], [room]) == Upto(Encode(row + "\n"), room) + [];
    } else {
      WrittenMore(rows[1..], rooms[1..], row, room);
      assert (rows + [row])[1..] == rows[1..] + [row] && (rooms + [room])[1..] == rooms[1..] + [room];
    }
    assert forall k :: 0 <= k < |rows| ==> (rows + [row])[k] == rows[k] && (rooms + [room])[k] == rooms[k];
  }

  lemma DoneStep(lines: seq<string>, k: nat)
    requires k < |lines|
    ensures RowsIn(lines[..k + 1]) == RowsIn(lines[..k]) + RowIn(lines[k])
    ensures (set r | r in RowsIn(lines[..k + 1]) :: ToString(Index(r))) ==
            (set r | r in RowsIn(lines[..k]) :: ToString(Index(r)))
            + (set r | r in RowIn(lines[k]) :: ToString(Index(r)))
  {
    hide RowIn, Index, ToString;
    assert lines[..k + 1][..k] == lines[..k];
    assert forall r :: r in RowsIn(lines[..k + 1]) <==> r in RowsIn(lines[..k]) || r in RowIn(lines[k]);
  }

  class StageFile {
    var file: seq<Byte>

    constructor ()
      ensures file == []
    {
      file := [];
    }

    // The disk takes `room` bytes; when that is not all of the line the append raises.
    method Append(row: string, room: nat) returns (ok: bool)
      modifies this
      ensures file == old(file) + Upto(Encode(row + "\n"), room)
      ensures ok <==> room >= |Encode(row + "\n")|
    {
      var buffer := Encode(row);
      EncodeConcat(row, "\n");
      buffer := buffer + Encode("\n");
      file := file + Upto(buffer, room);
      ok := room >= |buffer|;
    }

    // None is the UnicodeDecodeError of iterating over the file.
    method DoneKeys() returns (done: Option<set<string>>)
      ensures done == match Decode(file) case None => None case Some(text) => Some(Done(text))
    {
      hide Strip, IndexOf, LinesOf, ToString, Decode;
      var text :- Decode(file);
      var lines := LinesOf(text);
      var keys: set<string> := {};
      for k := 0 to |lines|
        invariant keys == set r | r in RowsIn(lines[..k]) :: ToString(Index(r))
      {
        DoneStep(lines, k);
        var line := Strip(lines[k]);
        if IndexOf(line).Some? {
          assert line in RowIn(lines[k]);
          keys := keys + {ToString(IndexOf(line).value)};
        }
      }
      assert lines[..|lines|] == lines;
      assert keys == Done(text);
      done := Some(keys);
    }

    method ReadRows() returns (rows: Option<seq<string>>)
      ensures rows == match Decode(file) case None => None case Some(text) => Some(Rows(text))
    {
      hide Strip, IndexOf, LinesOf, Decode;
      var text :- Decode(file);
      var lines := LinesOf(text);
      var read := [];
      for k := 0 to |lines|
        invariant read == RowsIn(lines[..k])
      {
        assert lines[..k + 1][..k] == lines[..k];
        var line := Strip(lines[k]);
        if IndexOf(line).Some? {
          read := read + [line];
        }
      }
      assert lines[..|lines|] == lines;
      rows := Some(read);
    }

    // The disk takes `room` bytes of the rewrite.
    method Finalize(room: nat) returns (rows: Option<seq<string>>)
      modifies this
      ensures Left(file, rows) == Rewritten(old(file), room)
    {
      hide SortByIndex, Rows, Decode, Encode, Join;
      var read :- ReadRows();
      var sorted := SortByIndex(read);
      file := [];
      var free: nat := room;
      NothingJoined(sorted);
      for k := 0 to |sorted|
        invariant file == Encode(Join(sorted[..k])) && free == room - |file|
      {
        var line := Encode(sorted[k] + "\n");
        JoinAt(sorted, k);
        if |line| > free {
          assert file + line[..free] == Encode(Join(sorted))[..room];
          file := file + line[..free];
          return None;
        }
        file, free := file + line, free - |line|;
      }
      assert sorted[..|sorted|] == sorted;
      rows := Some(sorted);
    }

    // A run that is not killed; appends that fail are noticed only after the last one.
    method RunStage(answers: seq<string>, rooms: seq<nat>, schedule: seq<nat>, room: nat)
      returns (rows: Option<seq<string>>)
      requires |rooms| == |answers| && forall k :: 0 <= k < |schedule| ==> schedule[k] < |answers|
      modifies this
      ensures Left(file, rows) == Ran(old(file), answers, rooms, schedule, Some(room))
    {
      hide SortByIndex, Rows, Done, Join, Decode, Encode, Upto, Rewritten, AllTaken, Written, Pending, ToString;
      var done :- DoneKeys();
      var todo: set<nat> := {};
      for i := 0 to |answers|
        invariant forall x :: x in todo <==> 0 <= x < i && ToString(x) !in done
      {
        if ToString(i) !in done {
          todo := todo + {i};
        }
      }
      ghost var text, before := Decode(file).value, file;
      var failed := false;
      NothingPending(text, answers, rooms, before);
      for k := 0 to |schedule|
        invariant |Pending(text, answers, schedule[..k])| == |Pending(text, rooms, schedule[..k])|
        invariant file == before + Written(Pending(text, answers, schedule[..k]), Pending(text, rooms, schedule[..k]))
        invariant failed <==> !AllTaken(Pending(text, answers, schedule[..k]), Pending(text, rooms, schedule[..k]))
      {
        PendingStep(text, answers, schedule, k);
        PendingStep(text, rooms, schedule, k);
        var i := schedule[k];
        if i in todo {
          WrittenMore(Pending(text, answers, schedule[..k]), Pending(text, rooms, schedule[..k]), answers[i], rooms[i]);
          var ok := Append(answers[i], rooms[i]);
          if !ok {
            failed := true;
          }
        }
      }
      assert schedule[..|schedule|] == schedule;
      if failed {
        return None;
      }
      rows := Finalize(room);
    }
  }

  lemma NothingPending(text: string, answers: seq<string>, rooms: seq<nat>, before: seq<Byte>)
    ensures Pending(text, answers, []) == [] && Pending(text, rooms, []) == []
    ensures before == before + Written([], []) && AllTaken([], [])
  {
  }

  lemma NothingJoined(rows: seq<string>)
    ensures Encode(Join(rows[..0])) == []
  {
    assert rows[..0] == [];
  }

  // The text of all rows is that of the first ones, one line, and the text of the others.
  lemma JoinAt(rows: seq<string>, k: nat)
    requires k < |rows|
    ensures Encode(Join(rows[..k + 1])) == Encode(Join(rows[..k])) + Encode(rows[k] + "\n")
    ensures Encode(Join(rows[..k + 1])) <= Encode(Join(rows))
  {
    hide *;
    var first, upto, others := rows[..k], rows[..k + 1], rows[k + 1..];
    assert upto == first + [rows[k]];
    JoinLine(first, rows[k]);
    assert rows == upto + others;
    JoinPrefix(upto, others);
  }

  lemma JoinLine(rows: seq<string>, row: string)
    ensures Encode(Join(rows + [row])) == Encode(Join(rows)) + Encode(row + "\n")
  {
    hide Join, Encode;
    JoinMore(rows, row);
    EncodeConcat(Join(rows), row + "\n");
    var a, b, c := Join(rows), row, "\n";
    assert a + b + c == a + (b + c);
  }

  lemma JoinPrefix(a: seq<string>, b: seq<string>)
    ensures Encode(Join(a)) <= Encode(Join(a + b))
  {
    hide Join, Encode;
    JoinConcat(a, b);
    EncodeConcat(Join(a), Join(b));
  }

  lemma {:induction false} JoinConcat(a: seq<string>, b: seq<string>)
    ensures Join(a + b) == Join(a) + Join(b)
  {
    if a == [] {
      assert a + b == b;
    } else {
      assert (a + b)[1..] == a[1..] + b;
      JoinConcat(a[1..], b);
    }
  }
}
