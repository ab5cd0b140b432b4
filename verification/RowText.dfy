// One row of a stage artifact, as text: memory/benchmarks/run.py:1223-1229, 1247-1258 and the row models of
// memory/benchmarks/config.py:298-420, whose first field is the index.
module RowText {
  import opened Prelude
  import opened Decimal
  import opened SyncCursor

  // ---- What a JSON text must look like ----

  // How far a reader of JSON has come in a text that opens with a brace: between tokens, inside a string,
  // behind a backslash or right behind a string, with so many enclosing brackets beyond the outermost.
  datatype Place =
    | Start
    | Between(depth: nat)
    | Inside(depth: nat)
    | Escape(depth: nat)
    | Behind(depth: nat)
    | Closed
    | Bad

  // Necessary for every JSON object: strings end, escapes are known, nothing but a separator, a bracket or a
  // blank follows a string, brackets balance, and nothing but blanks follows the last one.
  function Next(p: Place, c: char): Place
  {
    match p
    case Start => if c == '{' then Between(0) else Bad
    case Between(d) =>
      if c == '"' then Inside(d)
      else if c == '{' || c == '[' then Between(d + 1)
      else if c == '}' || c == ']' then Leave(d)
      else if c == '\\' then Bad
      else p
    case Inside(d) =>
      if c == '"' then Behind(d) else if c == '\\' then Escape(d) else if c < ' ' then Bad else p
    case Escape(d) =>
      if c == '"' || c == '\\' || c == '/' || c == 'b' || c == 'f' || c == 'n' || c == 'r' || c == 't' || c == 'u'
      then Inside(d)
      else Bad
    case Behind(d) =>
      if c == ',' || c == ':' then Between(d) else if c == '}' || c == ']' then Leave(d) else if IsWs(c) then p else Bad
    case Closed => if IsWs(c) then Closed else Bad
    case Bad => Bad
  }

  function Leave(depth: nat): Place { if depth == 0 then Closed else Between(depth - 1) }

  function Scan(p: Place, s: string): Place
  {
    if s == "" then p else Next(Scan(p, s[..|s| - 1]), s[|s| - 1])
  }

  lemma {:induction false} ScanConcat(p: Place, a: string, b: string)
    ensures Scan(p, a + b) == Scan(Scan(p, a), b)
  {
    if b == "" {
      assert a + b == a;
    } else {
      var n := |b| - 1;
      ScanConcat(p, a, b[..n]);
      assert (a + b)[..|a + b| - 1] == a + b[..n];
    }
  }

  // The same place with k more enclosing brackets.
  function Nested(p: Place, k: nat): Place
    requires k > 0
  {
    match p
    case Start => Between(k - 1)
    case Between(d) => Between(d + k)
    case Inside(d) => Inside(d + k)
    case Escape(d) => Escape(d + k)
    case Behind(d) => Behind(d + k)
    case Closed => Between(k - 1)
    case Bad => Bad
  }

  // Text read inside k brackets goes through the nested places, as long as it is not complete before its end.
  lemma {:induction false} ScanNested(s: string, k: nat)
    requires k > 0 && (s != "" ==> s[0] == '{')
    requires forall m :: 0 < m < |s| ==> Scan(Start, s[..m]) != Closed
    ensures Scan(Nested(Start, k), s) == Nested(Scan(Start, s), k)
  {
    if s != "" {
      var n := |s| - 1;
      forall m | 0 < m < n
        ensures Scan(Start, s[..n][..m]) != Closed
      {
        assert s[..n][..m] == s[..m];
      }
      ScanNested(s[..n], k);
      NeverStart(s[..n]);
      ScanLast(Start, s);
      assert n > 0 ==> Scan(Start, s[..n]) != Closed;
      hide Scan, Next, Nested;
      NestedNext(Scan(Start, s[..n]), k, s[n]);
      ScanLast(Nested(Start, k), s);
    }
  }

  lemma ScanLast(p: Place, s: string)
    requires s != ""
    ensures Scan(p, s) == Next(Scan(p, s[..|s| - 1]), s[|s| - 1])
  {
  }

  lemma NestedNext(p: Place, k: nat, c: char)
    requires k > 0 && p != Closed && (p == Start ==> c == '{')
    ensures Next(Nested(p, k), c) == Nested(Next(p, c), k)
  {
  }

  lemma {:induction false} NeverStart(s: string)
    ensures Scan(Start, s) == Start <==> s == ""
  {
    if s != "" {
      NeverStart(s[..|s| - 1]);
    }
  }

  lemma {:induction false} BadStays(s: string)
    ensures Scan(Bad, s) == Bad
  {
    if s != "" {
      BadStays(s[..|s| - 1]);
    }
  }

  // ---- Rows ----

  // str.strip, for the characters of ASCII and Latin-1 it removes.
  predicate IsSpace(c: char)
  {
    '\t' <= c <= '\r' || 0x1c as char <= c <= ' ' || c == 0x85 as char || c == 0xa0 as char
  }

  function StripRight(s: string): (r: string)
    ensures r <= s
    ensures r != "" ==> !IsSpace(r[|r| - 1])
    ensures forall k :: |r| <= k < |s| ==> IsSpace(s[k])
  {
    if s != "" && IsSpace(s[|s| - 1]) then StripRight(s[..|s| - 1]) else s
  }

  function StripLeft(s: string): string { if s != "" && IsSpace(s[0]) then StripLeft(s[1..]) else s }

  function Strip(s: string): string { StripRight(StripLeft(s)) }

  predicate Blanks(s: string) { forall k :: 0 <= k < |s| ==> s[k] == ' ' || s[k] == '\t' || s[k] == '\r' }

  // Blanks on both sides are stripped, and nothing between characters that are none.
  lemma {:induction false} StripsBlanks(before: string, s: string, after: string)
    requires Blanks(before) && Blanks(after) && s != "" && !IsSpace(s[0]) && !IsSpace(s[|s| - 1])
    ensures Strip(before + s + after) == s
    decreases |before|
  {
    if before == "" {
      assert before + s + after == s + after;
      StripsRight(s, after);
    } else {
      var all := before + s + after;
      assert all[1..] == before[1..] + s + after && all[0] == before[0];
      StripsBlanks(before[1..], s, after);
    }
  }

  lemma {:induction false} StripsRight(s: string, after: string)
    requires Blanks(after) && s != "" && !IsSpace(s[|s| - 1])
    ensures StripRight(s + after) == s
  {
    if after == "" {
      assert s + after == s;
    } else {
      var n := |after| - 1;
      assert (s + after)[..|s| + n] == s + after[..n] && (s + after)[|s| + n] == after[n];
      StripsRight(s, after[..n]);
    }
  }

  const HEAD: string := "{\"index\":"

  // json.loads(line).get("index") for the lines a stage writes, and None when json.loads must raise.
  function IndexOf(s: string): Option<nat>
  {
    if HEAD <= s && Scan(Start, s) == Closed then
      var end := RunEnd(s, |HEAD|, Digit);
      if end == |HEAD| then None else Some(Value(s[|HEAD|..end]))
    else None
  }

  // A row as model_dump_json writes it: the index first, more fields behind it, no control character.
  predicate IsRow(row: string, index: nat)
  {
    && HEAD + ToString(index) + "," <= row && row[|row| - 1] == '}'
    && (forall k :: 0 <= k < |row| ==> row[k] >= ' ')
    && Scan(Start, row) == Closed
  }

  lemma RowHead(row: string, index: nat)
    requires IsRow(row, index)
    ensures |row| > 3 && row[0] == '{' && row[1] == '"' && row[2] == 'i'
  {
    var h := HEAD + ToString(index) + ",";
    assert h[0] == '{' && h[1] == '"' && h[2] == 'i';
    assert forall k :: 0 <= k < |h| ==> row[k] == h[k];
  }

  // A row is complete only at its last character.
  lemma PrefixNotDone(row: string, index: nat, m: nat)
    requires IsRow(row, index) && m < |row|
    ensures Scan(Start, row[..m]) != Closed
  {
    if Scan(Start, row[..m]) == Closed {
      assert row == row[..m] + row[m..] && row[m..][|row| - m - 1] == '}';
      ScanConcat(Start, row[..m], row[m..]);
      DoneThenBlank(row[m..]);
    }
  }

  lemma {:induction false} DoneThenBlank(s: string)
    requires Scan(Closed, s) == Closed
    ensures forall k :: 0 <= k < |s| ==> IsWs(s[k])
  {
    if s != "" {
      var n := |s| - 1;
      if Scan(Closed, s[..n]) == Bad {
        BadStays([s[n]]);
      }
      OnlyDoneOrBad(s[..n]);
      DoneThenBlank(s[..n]);
      assert forall k :: 0 <= k < n ==> s[k] == s[..n][k];
    }
  }

  lemma {:induction false} OnlyDoneOrBad(s: string)
    ensures Scan(Closed, s) == Closed || Scan(Closed, s) == Bad
  {
    if s != "" {
      OnlyDoneOrBad(s[..|s| - 1]);
    }
  }

  // A row is read back as its index.
  lemma RowReadBack(row: string, index: nat)
    requires IsRow(row, index)
    ensures Strip(row) == row && IndexOf(row) == Some(index)
  {
    RowHead(row, index);
    var digits := ToString(index);
    var h := HEAD + digits + ",";
    assert forall k :: 0 <= k < |h| ==> row[k] == h[k];
    assert HEAD <= row;
    var end := |HEAD| + |digits|;
    assert row[end] == h[end] == ',';
    assert row[|HEAD|..end] == digits;
    assert forall k :: |HEAD| <= k < end ==> row[k] == digits[k - |HEAD|];
    RunEndIs(row, |HEAD|, end, Digit);
    ValueOfToString(index);
  }

  // ---- Torn and glued rows ----

  // A row cut short is not a row, whatever is stripped.
  lemma TornRowUnread(row: string, index: nat, m: nat)
    requires IsRow(row, index) && m < |row|
    ensures IndexOf(Strip(row[..m])) == None
  {
    RowHead(row, index);
    var s := row[..m];
    assert s != "" ==> s[0] == '{';
    var t := Strip(s);
    assert t == row[..|t|];
    PrefixNotDone(row, index, |t|);
  }

  // Nothing written behind the remains of another row is read, be it a whole row or the beginning of one.
  lemma GluedRowUnread(remains: string, row: string, index: nat, m: nat)
    requires remains != "" && remains[0] == '{' && IsRow(row, index) && 0 < m <= |row|
    ensures IndexOf(Strip(remains + row[..m])) == None
  {
    RowHead(row, index);
    var s := remains + row[..m];
    assert s[0] == '{' && s[|remains|] == '{';
    var t := Strip(s);
    assert |t| > |remains| by {
      assert forall k :: |t| <= k < |s| ==> IsSpace(s[k]);
      assert !IsSpace(s[|remains|]);
    }
    var k := |t| - |remains|;
    assert t == remains + row[..k];
    GluedNotDone(remains, row, index, k);
  }

  lemma GluedNotDone(remains: string, row: string, index: nat, m: nat)
    requires remains != "" && remains[0] == '{' && IsRow(row, index) && 0 < m <= |row|
    ensures Scan(Start, remains + row[..m]) != Closed
  {
    var piece := row[..m];
    RowHead(row, index);
    ScanConcat(Start, remains, piece);
    NeverStart(remains);
    match Scan(Start, remains)
    case Between(d) => NestedRow(row, index, m, d);
    case Inside(d) => InsideRow(row, index, m, d);
    case p => BadAtBrace(p, piece);
  }

  lemma NestedRow(row: string, index: nat, m: nat, d: nat)
    requires IsRow(row, index) && 0 < m <= |row|
    ensures Scan(Between(d), row[..m]) != Closed
  {
    var piece := row[..m];
    RowHead(row, index);
    forall j | 0 < j < m
      ensures Scan(Start, piece[..j]) != Closed
    {
      PrefixNotDone(row, index, j);
      assert piece[..j] == row[..j];
    }
    ScanNested(piece, d + 1);
  }

  // The brace goes into the open string, the quote ends it, and no letter may follow.
  lemma InsideRow(row: string, index: nat, m: nat, d: nat)
    requires IsRow(row, index) && 0 < m <= |row|
    ensures Scan(Inside(d), row[..m]) != Closed
  {
    RowHead(row, index);
    var s := row[..m];
    ScanOne(Inside(d), s);
    if m > 1 {
      ScanOne(Inside(d), s[1..]);
      if m > 2 {
        ScanOne(Behind(d), s[1..][1..]);
        BadStays(s[1..][1..][1..]);
      }
    }
  }

  lemma BadAtBrace(p: Place, s: string)
    requires (p.Escape? || p.Behind? || p.Closed? || p.Bad?) && s != "" && s[0] == '{'
    ensures Scan(p, s) != Closed
  {
    ScanOne(p, s);
    BadStays(s[1..]);
  }

  lemma ScanOne(p: Place, s: string)
    requires s != ""
    ensures Scan(p, s) == Scan(Next(p, s[0]), s[1..])
  {
    assert s == [s[0]] + s[1..];
    ScanConcat(p, [s[0]], s[1..]);
    assert [s[0]][..0] == "";
  }
}
