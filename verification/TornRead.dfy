// What a cursor that does not stand at a line start makes the device send: bridge/firmware/sync_client.cpp:158-180
// reading lines laid out by firmware/genesis-mini/src/agent_runtime.cpp:181-199.
module TornRead {
  import opened Prelude
  import opened Decimal
  import opened SyncCursor
  import opened JsonText
  import opened MemoryRecord
  import opened AddPayload
  import opened SyncSpec
  import opened SyncRuns

  // ---- A record line as the sync client sees it ----

  predicate Visible(s: string) { forall k :: 0 <= k < |s| ==> s[k] as int >= 0x20 }

  lemma {:induction false} EscapedVisible(t: string)
    ensures Visible(Escaped(t))
  {
    if t != "" {
      EscapedVisible(t[1..]);
      assert Visible(EscapeByte(t[0]));
    }
  }

  lemma {:induction false} VisibleKept(s: string)
    requires Visible(s)
    ensures DropCr(s) == s && CStr(s) == s
  {
    if s != "" {
      VisibleKept(s[1..]);
      assert s == [s[0]] + s[1..];
    }
  }

  lemma RecordVisible(r: Record)
    ensures Visible(RecordLine(r))
  {
    EscapedVisible(r.text);
    hide Escaped, ToString;
    assert Visible(Head(r)) by { assert Visible("{\"ts\":") && Visible(ToString(r.ts)); }
    assert Visible(RoleField(r));
    assert Visible("\"text\":");
    hide Head, RoleField;
  }

  // The message a device sends for what is left of the record line from position p on.
  function SentFrom(r: Record, p: nat, deviceId: string): Option<SyncMessage>
    requires p <= |RecordLine(r)|
  {
    MessageOf(RecordLine(r)[p..], deviceId)
  }

  lemma SentFromIs(r: Record, p: nat, deviceId: string)
    requires p <= |RecordLine(r)|
    ensures IsLine(RecordLine(r) + "\n")
    ensures DropCr(RecordLine(r)[p..]) == RecordLine(r)[p..] == CStr(RecordLine(r)[p..])
  {
    RecordVisible(r);
    hide RecordLine;
    VisibleKept(RecordLine(r)[p..]);
  }

  // ---- Reading the tail of a line ----

  lemma HoldsShift(s: string, p: nat, k: nat, part: string)
    requires p <= |s|
    ensures HoldsAt(s[p..], k, part) <==> HoldsAt(s, p + k, part)
  {
    if p + k + |part| <= |s| {
      assert s[p..][k..k + |part|] == s[p + k..p + k + |part|];
    }
  }

  // A key of the line from p on, at `at`, whose text value is t.
  lemma FieldFrom(s: string, p: nat, key: string, at: nat, t: string)
    requires p <= at && HoldsAt(s, at, "\"" + key + "\":") && at + |key| + 4 <= |s| && s[at + |key| + 3] == '"'
    requires HoldsAt(s, at + |key| + 4, Escaped(t) + "\"")
    requires forall k :: p <= k < at ==> !HoldsAt(s, k, "\"" + key + "\"")
    ensures var i := at + |key| + 3 - p;
            ValueAt(s[p..], key, 0) == Some(i) && ReadString(s[p..], i).closed
            && ReadString(s[p..], i).text == Garbled(t)
  {
    hide HoldsAt, ValueAt, ReadString, Escaped;
    var tail := s[p..];
    HoldsShift(s, p, at - p, "\"" + key + "\":");
    HoldsShift(s, p, at - p + |key| + 4, Escaped(t) + "\"");
    forall k | 0 <= k < at - p
      ensures !HoldsAt(tail, k, "\"" + key + "\"")
    {
      HoldsShift(s, p, k, "\"" + key + "\"");
    }
    KeyFoundAt(tail, key, at - p);
    ReadEscaped(tail, at - p + |key| + 4, t);
  }

  // No key from p on: needles only at the end of the text, where no colon follows.
  lemma NoFieldFrom(r: Record, p: nat, key: string)
    requires p <= |RecordLine(r)| && 2 <= |key|
             && (forall k :: 0 <= k < |key| ==> key[k] != '"' && key[k] != '\\' && key[k] != '}')
    requires forall k :: p <= k < TextAt(r) + 7 ==> !HoldsAt(RecordLine(r), k, "\"" + key + "\"")
    ensures ValueAt(RecordLine(r)[p..], key, 0) == None
  {
    var s, needle := RecordLine(r), "\"" + key + "\"";
    hide RecordLine, HoldsAt;
    var at := Find(s[p..], needle, 0);
    if at.Some? {
      HoldsShift(s, p, at.value, needle);
      NeedleEndsText(r, key, p + at.value);
      var after := at.value + |needle|;
      assert s[p..][after] == s[p + after] == '}';
      RunEndIs(s[p..], after, after, Blank);
    }
  }

  lemma TailTrimmed(r: Record, p: nat)
    requires p <= |RecordLine(r)|
    ensures TrimEnd(RecordLine(r)[p..]) == RecordLine(r)[p..]
  {
    Layout(r);
    hide RecordLine, Head, RoleField;
  }

  // ---- Which needles the line holds from p on ----

  lemma TextKeyQuiet(s: string, at: nat)
    requires HoldsAt(s, at, "\"text\":")
    ensures Quiet(s, at, at + 7, 'r') && Quiet(s, at, at + 7, 'c') && !HoldsAt(s, at, "\"" + "ts" + "\"")
            && Quiet(s, at + 1, at + 7, 't')
  {
    var needle := "\"" + "ts" + "\"";
    QuietPart(s, at, "\"text\":", 'r');
    QuietPart(s, at, "\"text\":", 'c');
    HeldChars(s, at, "\"text\":");
    HeldChars(s, at, needle);
    assert "\"text\":"[2] == 'e' && needle[2] == 's';
    assert "\"text\":" == "\"" + "text\":";
    HoldsSplit(s, at, "\"", "text\":");
    QuietPart(s, at + 1, "text\":", 't');
  }

  // Past the role key of the line the role is not found.
  lemma NoRoleFrom(r: Record, p: nat)
    requires RoleAt(r) < p <= |RecordLine(r)|
    ensures ValueAt(RecordLine(r)[p..], "role", 0) == None
  {
    var s := RecordLine(r);
    Layout(r);
    TextKeyQuiet(s, TextAt(r));
    RoleTailQuiet(r);
    hide RecordLine, HoldsAt, Quiet, Head, RoleField;
    assert "role"[0] == 'r';
    QuietNoKey(s, RoleAt(r) + 1, TextAt(r), "role");
    QuietNoKey(s, TextAt(r), TextAt(r) + 7, "role");
    NoFieldFrom(r, p, "role");
  }

  function RoleTail(r: Record): string { if r.role == User then "role\":\"user\"," else "role\":\"assistant\"," }

  lemma TailsQuiet(r: Record)
    ensures Quiet(RoleTail(r), 0, |RoleTail(r)|, 'r') && RoleField(r) == "\"" + RoleTail(r)
    ensures Quiet("clock\":\"uptime\",", 0, |"clock\":\"uptime\","|, 'c')
  {
  }

  lemma RoleTailQuiet(r: Record)
    ensures Quiet(RecordLine(r), RoleAt(r) + 1, TextAt(r), 'r')
  {
    var s := RecordLine(r);
    Layout(r);
    TailsQuiet(r);
    hide RecordLine, Head, HoldsAt, Quiet, RoleTail;
    HoldsSplit(s, RoleAt(r), "\"", RoleTail(r));
    QuietPart(s, RoleAt(r) + 1, RoleTail(r), 'r');
  }

  // From the first position past the keys before it, the line reads as a record without time or clock.
  lemma HeadlessRead(r: Record, p: nat)
    requires p <= RoleAt(r) && Quiet(RecordLine(r), p, RoleAt(r), 't') && Quiet(RecordLine(r), p, RoleAt(r), 'c')
    ensures p <= |RecordLine(r)|
    ensures MemoryLineOf(RecordLine(r)[p..]) == MemoryLine(0, RoleName(r.role), Garbled(r.text), false, r.text != "")
  {
    var s := RecordLine(r);
    Layout(r);
    RoleFrom(r, p);
    TextFrom(r, p);
    NoTsFrom(r, p);
    NoClockFrom(r, p);
    TailTrimmed(r, p);
    GarbledExact(r.text);
    hide RecordLine, HoldsAt, Quiet, Head, RoleField, ValueAt, ReadString;
  }

  lemma RoleFrom(r: Record, p: nat)
    requires p <= RoleAt(r) <= |RecordLine(r)|
    ensures FieldText(RecordLine(r)[p..], "role") == RoleName(r.role)
  {
    var s := RecordLine(r);
    HeadQuiet(r);
    RoleParts(r);
    hide RecordLine, HoldsAt, Quiet, Head, RoleField, Escaped, ValueAt, ReadString;
    assert "role"[0] == 'r' && "\"" + "role" + "\":" == "\"role\":";
    QuietNoKey(s, 0, RoleAt(r), "role");
    FieldFrom(s, p, "role", RoleAt(r), RoleName(r.role));
    RoleNameEscaped(r.role);
  }

  lemma TextFrom(r: Record, p: nat)
    requires p <= RoleAt(r) <= |RecordLine(r)|
    ensures FieldText(RecordLine(r)[p..], "text") == Garbled(r.text)
  {
    var s := RecordLine(r);
    NoTextBefore(r);
    Layout(r);
    hide RecordLine, HoldsAt, Quiet, Head, RoleField, Escaped, ValueAt, ReadString;
    assert "\"" + "text" + "\":" == "\"text\":";
    FieldFrom(s, p, "text", TextAt(r), r.text);
  }

  lemma NoTsNeedle(r: Record, p: nat)
    requires p <= RoleAt(r) <= |RecordLine(r)| && Quiet(RecordLine(r), p, RoleAt(r), 't')
    ensures forall k :: p <= k < TextAt(r) + 7 ==> !HoldsAt(RecordLine(r), k, "\"" + "ts" + "\"")
  {
    Layout(r);
    RoleQuiet(r);
    TextKeyQuiet(RecordLine(r), TextAt(r));
    assert RoleAt(r) <= TextAt(r);
    hide *;
    NoTsSpan(RecordLine(r), p, RoleAt(r), TextAt(r));
  }

  lemma NoTsSpan(s: string, p: nat, a: nat, b: nat)
    requires p <= a <= b && Quiet(s, p, a, 't') && Quiet(s, a, b, 't') && Quiet(s, b + 1, b + 7, 't')
    requires !HoldsAt(s, b, "\"" + "ts" + "\"")
    ensures forall k :: p <= k < b + 7 ==> !HoldsAt(s, k, "\"" + "ts" + "\"")
  {
    hide *;
    assert "ts"[0] == 't';
    QuietNoKey(s, p, a, "ts");
    QuietNoKey(s, a, b, "ts");
    QuietNoKey(s, b + 1, b + 7, "ts");
  }

  lemma NoTsFrom(r: Record, p: nat)
    requires p <= RoleAt(r) <= |RecordLine(r)| && Quiet(RecordLine(r), p, RoleAt(r), 't')
    ensures ValueAt(RecordLine(r)[p..], "ts", 0) == None
  {
    NoTsNeedle(r, p);
    hide *;
    NoFieldFrom(r, p, "ts");
  }

  lemma NoClockFrom(r: Record, p: nat)
    requires p <= RoleAt(r) <= |RecordLine(r)| && Quiet(RecordLine(r), p, RoleAt(r), 'c')
    ensures ValueAt(RecordLine(r)[p..], "clock", 0) == None
  {
    var s := RecordLine(r);
    RoleQuiet(r);
    hide RecordLine, HoldsAt, Quiet, Head, RoleField, ValueAt;
    assert "clock"[0] == 'c';
    QuietNoKey(s, p, RoleAt(r), "clock");
    QuietNoKey(s, RoleAt(r), TextAt(r), "clock");
    QuietNoKey(s, TextAt(r), TextAt(r) + 7, "clock");
    NoFieldFrom(r, p, "clock");
  }

  // ---- The exact effect of starting inside a line ----

  // Position of the clock key in a line with an uptime clock.
  function ClockAt(r: Record): nat { 7 + |ToString(r.ts)| }

  // The last position from which the line still reads as what it is: before its clock, or its time.
  function WholeUpTo(r: Record): nat { if r.uptime then ClockAt(r) else 1 }

  // The message of the record, with the time the device reads for it.
  function RecordMessage(r: Record, ts: nat, deviceId: string): SyncMessage
  {
    SyncMessage(deviceId, RoleName(r.role), if ts > 0 then ts else 1, Garbled(r.text))
  }

  lemma ClockTailQuiet(r: Record)
    requires r.uptime
    ensures ClockAt(r) < RoleAt(r) && Quiet(RecordLine(r), ClockAt(r) + 1, RoleAt(r), 'c')
  {
    var s, rest := RecordLine(r), "clock\":\"uptime\",";
    HeadParts(r);
    TailsQuiet(r);
    assert ",\"clock\":\"uptime\"," == "," + ("\"" + rest);
    hide RecordLine, Head, HoldsAt, Quiet, ToString;
    HoldsSplit(s, ClockAt(r) - 1, ",", "\"" + rest);
    HoldsSplit(s, ClockAt(r), "\"", rest);
    QuietPart(s, ClockAt(r) + 1, rest, 'c');
  }

  lemma ClockSeen(r: Record, p: nat)
    requires r.uptime && p <= ClockAt(r) && p <= |RecordLine(r)|
    ensures MemoryLineOf(RecordLine(r)[p..]).uptimeClock
  {
    Layout(r);
    ClockTailQuiet(r);
    TailTrimmed(r, p);
    ClockFieldFrom(r, p);
    hide RecordLine, HoldsAt, Quiet, Head, RoleField, Escaped, ToString, ValueAt, ReadString, FieldText, IntegerAt;
    assert RecordLine(r)[p..] != "";
  }

  lemma ClockFieldFrom(r: Record, p: nat)
    requires r.uptime && p <= ClockAt(r) && p <= |RecordLine(r)|
    ensures var t := RecordLine(r)[p..];
            var at := ValueAt(t, "clock", 0);
            at.Some? && ReadString(t, at.value).closed && ReadString(t, at.value).text == "uptime"
  {
    UptimeValue(r);
    NoClockBefore(r);
    hide *;
    FieldFrom(RecordLine(r), p, "clock", ClockAt(r), "uptime");
  }

  lemma NoClockBefore(r: Record)
    requires r.uptime
    ensures forall k :: 0 <= k < ClockAt(r) ==> !HoldsAt(RecordLine(r), k, "\"" + "clock" + "\"")
    ensures HoldsAt(RecordLine(r), ClockAt(r), "\"" + "clock" + "\":") && RecordLine(r)[ClockAt(r) + 8] == '"'
  {
    ClockHeadQuiet(r);
    ClockParts(r);
    hide RecordLine, HoldsAt, Quiet, ToString;
    assert "clock"[0] == 'c' && "\"" + "clock" + "\":" == "\"clock\":";
    QuietNoKey(RecordLine(r), 0, ClockAt(r), "clock");
  }

  lemma UptimeValue(r: Record)
    requires r.uptime
    ensures HoldsAt(RecordLine(r), ClockAt(r) + 9, Escaped("uptime") + "\"") && ClockAt(r) + 9 <= |RecordLine(r)|
  {
    ClockParts(r);
    PlainUptime();
    hide RecordLine, Escaped, ToString;
    HoldsInside(RecordLine(r), ClockAt(r) + 9, "uptime" + "\"");
  }

  lemma PlainUptime()
    ensures Escaped("uptime") == "uptime" == Garbled("uptime")
  {
    hide Escaped, Garbled;
    PlainEscaped("uptime");
  }

  lemma HoldsInside(s: string, i: nat, part: string)
    requires HoldsAt(s, i, part)
    ensures i + |part| <= |s|
  {
  }

  // Dropping only the brace loses nothing.
  lemma BraceLost(r: Record)
    requires !r.uptime
    ensures RecordLine(r) != "" && MemoryLineOf(RecordLine(r)[1..]) == MemoryLineOf(RecordLine(r))
  {
    var s := RecordLine(r);
    Layout(r);
    RoleFrom(r, 1);
    TextFrom(r, 1);
    HeadQuiet(r);
    NoClockFrom(r, 1);
    TailTrimmed(r, 1);
    TsFrom1(r);
    RecordRecovered(r);
    GarbledExact(r.text);
    hide RecordLine, HoldsAt, Quiet, Head, RoleField, ValueAt, ReadString, IntegerAt, FieldText;
  }

  lemma TsFrom1(r: Record)
    ensures |RecordLine(r)| > 1
    ensures var t := RecordLine(r)[1..];
            ValueAt(t, "ts", 0) == Some(5) && IntegerAt(t, 5) == r.ts
  {
    var s, digits := RecordLine(r), ToString(r.ts);
    HeadParts(r);
    DigitsEnd(r);
    ValueOfToString(r.ts);
    var t := s[1..];
    hide RecordLine, Head, HoldsAt, ValueAt, Value, ToString;
    assert "{\"ts\":" == "{" + "\"ts\":";
    HoldsSplit(s, 0, "{", "\"ts\":");
    HoldsShift(s, 1, 0, "\"ts\":");
    assert "\"" + "ts" + "\":" == "\"ts\":";
    SliceShift(s, 5 + |digits|);
    KeyFound(t, "ts", 0);
    DigitsThere(t, digits);
    RunEndIs(t, 5, 5 + |digits|, Digit);
  }

  lemma SliceShift(s: string, stop: nat)
    requires 5 < stop && stop + 1 < |s|
    ensures s[1..][5..stop] == s[6..stop + 1] && s[1..][stop] == s[stop + 1] && s[1..][5] == s[6]
  {
  }

  lemma DigitsThere(t: string, digits: string)
    requires 5 + |digits| < |t| && t[5..5 + |digits|] == digits && AllDigits(digits)
    ensures forall k :: 5 <= k < 5 + |digits| ==> Within(t[k], Digit)
  {
    assert forall k :: 5 <= k < 5 + |digits| ==> t[k] == t[5..5 + |digits|][k - 5];
  }

  lemma LineFrom(r: Record, p: nat)
    requires p <= |RecordLine(r)|
    ensures var line := MemoryLineOf(RecordLine(r)[p..]);
            if p > RoleAt(r) then !line.ok
            else if r.uptime && p <= WholeUpTo(r) then line.uptimeClock
            else line == MemoryLine(if p <= WholeUpTo(r) then r.ts else 0,
                                    RoleName(r.role), Garbled(r.text), false, r.text != "")
  {
    hide MemoryLineOf, RecordLine, RoleName, Garbled, Quiet, RoleAt;
    if p > RoleAt(r) {
      NoRoleNotOk(r, p);
    } else if r.uptime && p <= WholeUpTo(r) {
      ClockSeen(r, p);
    } else if p <= WholeUpTo(r) {
      RecordRecovered(r);
      BraceLost(r);
      assert RecordLine(r)[0..] == RecordLine(r);
    } else {
      PastTheTime(r, p);
      HeadlessRead(r, p);
    }
  }

  // For every record and every position in its line, what a device that starts reading there sends. At the
  // start it is the record's message, or nothing for an uptime record. Past the clock or the time, up to
  // the role, it is a message no record stands for: the time is lost, and uptime records are sent too.
  lemma MidLineSent(r: Record, p: nat, deviceId: string)
    requires p <= |RecordLine(r)|
    ensures SentFrom(r, p, deviceId) ==
            if r.text == "" || p > RoleAt(r) || (r.uptime && p <= WholeUpTo(r)) then None
            else if p <= WholeUpTo(r) then Some(RecordMessage(r, r.ts, deviceId))
            else Some(RecordMessage(r, 0, deviceId))
  {
    hide SentFrom, MemoryLineOf, RecordLine, RoleName, Garbled, RoleAt, WholeUpTo;
    SentFromLine(r, p, deviceId);
    LineFrom(r, p);
  }

  lemma SentFromLine(r: Record, p: nat, deviceId: string)
    requires p <= |RecordLine(r)|
    ensures var line := MemoryLineOf(RecordLine(r)[p..]);
            SentFrom(r, p, deviceId) == if ShouldIncludeInBatch(line) then Some(ToSyncMessage(line, deviceId)) else None
  {
    SentFromIs(r, p, deviceId);
  }

  lemma PastTheTime(r: Record, p: nat)
    requires WholeUpTo(r) < p <= RoleAt(r)
    ensures Quiet(RecordLine(r), p, RoleAt(r), 't') && Quiet(RecordLine(r), p, RoleAt(r), 'c')
  {
    HeadQuiet(r);
    if r.uptime {
      ClockTailQuiet(r);
    }
  }

  lemma NoRoleNotOk(r: Record, p: nat)
    requires RoleAt(r) < p <= |RecordLine(r)|
    ensures !MemoryLineOf(RecordLine(r)[p..]).ok
  {
    NoRoleFrom(r, p);
    TailTrimmed(r, p);
    hide RecordLine, ValueAt, ReadString, IntegerAt;
  }

  // A whole record line is a line of the file, and its message is the record's.
  lemma RecordLineSent(r: Record, deviceId: string)
    ensures IsLine(RecordLine(r) + "\n")
    ensures LineMessage(RecordLine(r) + "\n", deviceId) ==
            if r.text == "" || r.uptime then None else Some(RecordMessage(r, r.ts, deviceId))
    ensures var m := RecordMessage(r, r.ts, deviceId);
            && m.senderId == deviceId && m.role == (if r.role == User then "user" else "assistant")
            && m.timestampMs == (if r.ts > 0 then r.ts else 1) && (m.content == r.text <==> Clean(r.text))
  {
    GarbledExact(r.text);
    SentFromIs(r, 0, deviceId);
    MidLineSent(r, 0, deviceId);
    hide RecordLine, MessageOf;
    assert RecordLine(r)[0..] == RecordLine(r);
    var l := RecordLine(r) + "\n";
    assert l[..|l| - 1] == RecordLine(r);
  }

  // ---- A run in which a torn cursor write forges a message ----

  lemma LineTail(r: Record, p: nat)
    requires p < |RecordLine(r)|
    ensures var file := RecordLine(r) + "\n";
            NextLine(file, p) == |file| && LineText(file, p) == RecordLine(r)[p..]
  {
    var line := RecordLine(r);
    var file := line + "\n";
    SentFromIs(r, p, "");
    FlattenOne(file);
    StartEnd([file]);
    NextLineIs([file], 0, p);
    hide RecordLine, NextLine, DropCr, Flatten, CStr;
    assert file[p..|file| - 1] == line[p..];
  }

  // From position p of line i: the tail of that line is read, and reading goes on at line i + 1.
  lemma TailOfLine(lines: seq<string>, i: nat, r: Record, p: nat)
    requires AllLines(lines) && i < |lines| && lines[i] == RecordLine(r) + "\n" && p <= |RecordLine(r)|
    ensures var file, off := Flatten(lines), Start(lines, i) + p;
            off < |file| && NextLine(file, off) == Start(lines, i + 1) && LineText(file, off) == RecordLine(r)[p..]
  {
    var line := RecordLine(r);
    SentFromIs(r, p, "");
    hide RecordLine, NextLine, LineText, DropCr, Flatten, CStr, Start, AllLines, IsLine;
    LineTailIs(lines, i, p);
    assert lines[i][p..|lines[i]| - 1] == line[p..];
  }

  // The batch of a device that starts reading there: what the tail makes it send, and then exactly the messages of
  // the next lines.
  lemma MidFileCollect(lines: seq<string>, i: nat, r: Record, p: nat, deviceId: string, room: nat, lineReads: nat)
    requires AllLines(lines) && i < |lines| && lines[i] == RecordLine(r) + "\n" && p <= |RecordLine(r)|
    requires room > 0 && lineReads > 0
    ensures Start(lines, i) + p < |Flatten(lines)|
    ensures TailThenLines(lines, i, SentFrom(r, p, deviceId), deviceId, room, lineReads,
                          Collect(Flatten(lines), deviceId, Start(lines, i) + p, room, lineReads))
  {
    hide Collect, SentFrom, Messages, Start, Flatten, Taken, IsLine, Collects, RecordLine, Sent;
    var m := SentFrom(r, p, deviceId);
    var left := if m.None? then room else room - 1;
    var j := i + 1 + Taken(lines[i + 1..], deviceId, left, lineReads - 1);
    TailOfLine(lines, i, r, p);
    CollectTailFirst(lines, i, r, p, deviceId, room, lineReads);
    CollectExact(lines, i + 1, deviceId, left, lineReads - 1);
    CollectsAre(lines, deviceId, i + 1, j, left, lineReads - 1);
  }

  lemma CollectTailFirst(lines: seq<string>, i: nat, r: Record, p: nat, deviceId: string, room: nat, lineReads: nat)
    requires AllLines(lines) && i < |lines| && lines[i] == RecordLine(r) + "\n" && p <= |RecordLine(r)|
    requires room > 0 && lineReads > 0
    ensures Start(lines, i) + p < |Flatten(lines)| && Start(lines, i + 1) <= |Flatten(lines)|
    ensures var m, file := SentFrom(r, p, deviceId), Flatten(lines);
            var rest := Collect(file, deviceId, Start(lines, i + 1), if m.None? then room else room - 1, lineReads - 1);
            Collect(file, deviceId, Start(lines, i) + p, room, lineReads) == (Sent(m) + rest.0, rest.1)
  {
    hide Collect, RecordLine, LineText, NextLine, MessageOf, Start, Flatten, AllLines, IsLine;
    TailOfLine(lines, i, r, p);
    CollectStarts(Flatten(lines), deviceId, Start(lines, i) + p, room, lineReads);
  }

  function Sent(m: Option<SyncMessage>): seq<SyncMessage> { if m.None? then [] else [m.value] }

  lemma CollectsAre(lines: seq<string>, deviceId: string, i: nat, j: nat, room: nat, lineReads: nat)
    requires AllLines(lines) && Collects(lines, deviceId, i, j, room, lineReads)
    ensures i <= j <= |lines| && Start(lines, i) <= |Flatten(lines)|
    ensures Collect(Flatten(lines), deviceId, Start(lines, i), room, lineReads) ==
            (Messages(lines[i..j], deviceId), Start(lines, j))
  {
  }

  lemma CollectStarts(file: string, deviceId: string, off: nat, room: nat, lineReads: nat)
    requires off < |file| && room > 0 && lineReads > 0
    ensures var m := MessageOf(LineText(file, off), deviceId);
            var rest := Collect(file, deviceId, NextLine(file, off), if m.None? then room else room - 1, lineReads - 1);
            Collect(file, deviceId, off, room, lineReads) == (Sent(m) + rest.0, rest.1)
  {
    hide LineText, NextLine, MessageOf;
    var m := MessageOf(LineText(file, off), deviceId);
    if m.None? {
      var rest := Collect(file, deviceId, NextLine(file, off), room, lineReads - 1);
      assert [] + rest.0 == rest.0;
    }
  }

  ghost predicate TailThenLines(lines: seq<string>, i: nat, m: Option<SyncMessage>, deviceId: string, room: nat,
                                lineReads: nat, batch: (seq<SyncMessage>, nat))
    requires AllLines(lines) && i < |lines| && room > 0 && lineReads > 0
  {
    var j := i + 1 + Taken(lines[i + 1..], deviceId, if m.None? then room else room - 1, lineReads - 1);
    && j <= |lines|
    && batch == (Sent(m) + Messages(lines[i + 1..j], deviceId), Start(lines, j))
  }

  // A whole sync from the middle of a record line: with MidLineSent this is what the server then stores.
  lemma MidFileSync(cfg: Config, s: Store, lines: seq<string>, i: nat, r: Record, p: nat, env: Env)
    returns (batch: (seq<SyncMessage>, nat))
    requires AllLines(lines) && i < |lines| && lines[i] == RecordLine(r) + "\n" && p <= |RecordLine(r)|
    requires s.file == Flatten(lines) && CursorValue(s.cursor) == Start(lines, i) + p
    requires IsConfigured(cfg) && env.mounted && env.cursorReadable && env.sizeKnown && env.lineReads > 0
    requires env.post.sent && env.post.stored && Is2xx(env.post.code)
    ensures TailThenLines(lines, i, SentFrom(r, p, cfg.deviceId), cfg.deviceId, MAX_BATCH, env.lineReads, batch)
    ensures Received(SyncNow(cfg, s, env).0.log) == Received(s.log) + batch.0
  {
    hide RecordLine, Collect, SentFrom, IsConfigured, SessionOf, CursorValue, TailThenLines, Received, Flatten, Start;
    hide AllLines, SyncNow, Is2xx;
    TailOfLine(lines, i, r, p);
    MidFileCollect(lines, i, r, p, cfg.deviceId, MAX_BATCH, env.lineReads);
    batch := Collect(s.file, cfg.deviceId, Start(lines, i) + p, MAX_BATCH, env.lineReads);
    LogAfter(s, env, cfg, batch);
  }

  lemma LogAfter(s: Store, env: Env, cfg: Config, batch: (seq<SyncMessage>, nat))
    requires IsConfigured(cfg) && env.mounted && env.cursorReadable && env.sizeKnown && CursorValue(s.cursor) < |s.file|
    requires env.post.sent && env.post.stored && Is2xx(env.post.code)
    requires batch == Collect(s.file, cfg.deviceId, CursorValue(s.cursor), MAX_BATCH, env.lineReads)
    ensures Received(SyncNow(cfg, s, env).0.log) == Received(s.log) + batch.0
  {
    hide Collect, IsConfigured, SessionOf, CursorValue, Received;
    if batch.0 != [] {
      ReceivedMore(s.log, Batch(SessionOf(cfg, env.clock, batch.0), batch.0));
    } else {
      assert Received(s.log) + [] == Received(s.log);
    }
  }

  // A sync that starts at position p of a one-line file.
  lemma SyncFrom(cfg: Config, s: Store, r: Record, p: nat, env: Env)
    requires s.file == RecordLine(r) + "\n" && CursorValue(s.cursor) == p < |RecordLine(r)|
    requires SentFrom(r, p, cfg.deviceId).Some? && IsConfigured(cfg) && env.mounted && env.cursorReadable
             && env.sizeKnown
    requires env.lineReads > 0 && env.post.sent && env.post.stored && Is2xx(env.post.code)
    ensures var m := SentFrom(r, p, cfg.deviceId).value;
            SyncNow(cfg, s, env).0 ==
            Saved(s.(log := s.log + [Batch(SessionOf(cfg, env.clock, [m]), [m])]), |s.file|, env.save).0
  {
    CollectTail(r, p, cfg.deviceId, env.lineReads);
    hide RecordLine, Collect, SentFrom, IsConfigured, SessionOf, CursorValue, Saved;
  }

  lemma CollectTail(r: Record, p: nat, deviceId: string, lineReads: nat)
    requires p < |RecordLine(r)| && lineReads > 0 && SentFrom(r, p, deviceId).Some?
    ensures var file := RecordLine(r) + "\n";
            Collect(file, deviceId, p, MAX_BATCH, lineReads) == ([SentFrom(r, p, deviceId).value], |file|)
  {
    LineTail(r, p);
    hide RecordLine, NextLine, LineText, MessageOf;
    var file, m := RecordLine(r) + "\n", SentFrom(r, p, deviceId).value;
    assert Collect(file, deviceId, |file|, MAX_BATCH - 1, lineReads - 1) == ([], |file|);
    assert [m] + [] == [m];
  }

  // For every wall-clock record whose line takes 60 to 69 bytes: it is stored, the cursor write stops after
  // one digit, and the next sync stores a second message for it, with time 1, that no line stands for.
  lemma TornCursorForges(cfg: Config, r: Record, env: Env)
    requires IsConfigured(cfg) && !r.uptime && r.text != "" && 60 <= |RecordLine(r)| + 1 < 70
    requires env.mounted && Faithful(env) && env.lineReads > 0 && env.post.sent && Is2xx(env.post.code)
    ensures var lost, append := Sync(env.(save := Stopped(1))), Append(RecordLine(r) + "\n");
            && Possible(append) && Possible(lost) && Possible(Sync(env))
            && Received(Run(cfg, [append, lost, Sync(env)]).log) ==
               [RecordMessage(r, r.ts, cfg.deviceId), RecordMessage(r, 0, cfg.deviceId)]
  {
    hide *;
    BothSent(r, cfg.deviceId);
    ThreePossible(RecordLine(r) + "\n", env);
    TwoSyncs(cfg, r, env.(save := Stopped(1)), env);
    ThreeEvents(cfg, RecordLine(r) + "\n", env.(save := Stopped(1)), env);
  }

  lemma ThreePossible(line: string, env: Env)
    requires IsLine(line) && Faithful(env)
    ensures Possible(Append(line)) && Possible(Sync(env.(save := Stopped(1)))) && Possible(Sync(env))
  {
  }

  lemma BothSent(r: Record, deviceId: string)
    requires !r.uptime && r.text != "" && 60 <= |RecordLine(r)| + 1 < 70
    ensures IsLine(RecordLine(r) + "\n")
    ensures SentFrom(r, 0, deviceId) == Some(RecordMessage(r, r.ts, deviceId))
    ensures SentFrom(r, 6, deviceId) == Some(RecordMessage(r, 0, deviceId))
  {
    RecordLineSent(r, deviceId);
    HeadParts(r);
    hide RecordLine, SentFrom, RecordMessage, IsLine, HoldsAt;
    MidLineSent(r, 0, deviceId);
    MidLineSent(r, 6, deviceId);
  }

  lemma TwoSyncs(cfg: Config, r: Record, torn: Env, env: Env)
    requires IsConfigured(cfg) && 60 <= |RecordLine(r)| + 1 < 70
    requires torn == env.(save := Stopped(1)) && env.mounted && Faithful(env) && env.lineReads > 0 && env.post.sent
             && Is2xx(env.post.code)
    requires SentFrom(r, 0, cfg.deviceId).Some? && SentFrom(r, 6, cfg.deviceId).Some?
    ensures Received(SyncNow(cfg, SyncNow(cfg, Store(RecordLine(r) + "\n", None, []), torn).0, env).0.log) ==
            [SentFrom(r, 0, cfg.deviceId).value, SentFrom(r, 6, cfg.deviceId).value]
  {
    hide RecordLine, SentFrom, IsConfigured, SessionOf, CursorValue, Saved, SyncNow;
    var first, second := SentFrom(r, 0, cfg.deviceId).value, SentFrom(r, 6, cfg.deviceId).value;
    var b1 := Batch(SessionOf(cfg, env.clock, [first]), [first]);
    var b2 := Batch(SessionOf(cfg, env.clock, [second]), [second]);
    var file := RecordLine(r) + "\n";
    var s0 := Store(file, None, []);
    StoppedAtOneDigit(s0.(log := [] + [b1]), |file|);
    SyncFrom(cfg, s0, r, 0, torn);
    var s1 := Saved(s0.(log := [] + [b1]), |file|, Stopped(1)).0;
    SyncFrom(cfg, s1, r, 6, env);
    SavedValue(s1.(log := s1.log + [b2]), |file|, env.save);
    ReceivedMore([], b1);
    ReceivedMore(s1.log, b2);
  }

  lemma RunMore(cfg: Config, events: seq<Event>, e: Event)
    ensures Run(cfg, events + [e]) == Apply(cfg, Run(cfg, events), e)
  {
    hide Apply;
    assert (events + [e])[..|events|] == events;
  }

  lemma ThreeEvents(cfg: Config, file: string, a: Env, b: Env)
    ensures Run(cfg, [Append(file), Sync(a), Sync(b)]) == SyncNow(cfg, SyncNow(cfg, Store(file, None, []), a).0, b).0
  {
    hide SyncNow;
    RunMore(cfg, [], Append(file));
    RunMore(cfg, [Append(file)], Sync(a));
    RunMore(cfg, [Append(file), Sync(a)], Sync(b));
    assert [] + [Append(file)] == [Append(file)];
    assert [Append(file)] + [Sync(a)] == [Append(file), Sync(a)];
    assert [Append(file), Sync(a)] + [Sync(b)] == [Append(file), Sync(a), Sync(b)];
    assert "" + file == file;
  }

  lemma StoppedAtOneDigit(s: Store, offset: nat)
    requires 60 <= offset < 70
    ensures CursorValue(None) == 0
    ensures var after := Saved(s, offset, Stopped(1)).0;
            CursorValue(after.cursor) == 6 && after.log == s.log && after.file == s.file
  {
    assert ToString(offset) == ToString(6) + [('0' as int + offset % 10) as char];
    var text := FormatCursor(offset)[..1];
    TornCursorValue(offset, 1);
    CStrPlain(text);
  }

  // ---- From remembered records to the server ----

  function RecordLines(records: seq<Record>): seq<string>
  {
    if records == [] then [] else [RecordLine(records[0]) + "\n"] + RecordLines(records[1..])
  }

  // The messages of the records with a wall clock and a text, in order.
  function WallMessages(records: seq<Record>, deviceId: string): seq<SyncMessage>
  {
    if records == [] then []
    else
      var r := records[0];
      (if r.text == "" || r.uptime then [] else [RecordMessage(r, r.ts, deviceId)])
      + WallMessages(records[1..], deviceId)
  }

  lemma {:induction false} MessagesOfRecords(records: seq<Record>, deviceId: string)
    ensures AllLines(RecordLines(records))
    ensures Messages(RecordLines(records), deviceId) == WallMessages(records, deviceId)
  {
    hide RecordLine, LineMessage, IsLine, RecordMessage;
    if records != [] {
      MessagesOfRecords(records[1..], deviceId);
      RecordLineSent(records[0], deviceId);
      assert RecordLines(records)[1..] == RecordLines(records[1..]);
    }
  }

  // After an undisturbed run that ends at the end of the file, the server holds the wall-clock records the
  // device remembered: each once, in order, nothing else.
  lemma RememberedAndSynced(cfg: Config, events: seq<Event>, records: seq<Record>)
    requires forall k :: 0 <= k < |events| ==> Undisturbed(events[k])
    requires Appended(events) == RecordLines(records) && |Flatten(Appended(events))| < U64
    requires CursorValue(Run(cfg, events).cursor) == |Run(cfg, events).file|
    ensures Received(Run(cfg, events).log) == WallMessages(records, cfg.deviceId)
  {
    hide *;
    var i := ExactlyOnce(cfg, events);
    MessagesOfRecords(records, cfg.deviceId);
    ExactAtEnd(Run(cfg, events), Appended(events), i, cfg.deviceId);
  }

  // An exact state whose cursor is at the end of the file has sent every line.
  lemma ExactAtEnd(s: Store, lines: seq<string>, i: nat, deviceId: string)
    requires AllLines(lines) && Exact(s, lines, i, deviceId) && CursorValue(s.cursor) == |s.file|
    ensures Received(s.log) == Messages(lines, deviceId)
  {
    hide AllLines, Received, CursorValue, Messages, Start;
    StartEnd(lines);
    StartOrder(lines, i, |lines|);
    assert lines[..|lines|] == lines;
  }
}
