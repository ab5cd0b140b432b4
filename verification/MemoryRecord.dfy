// Reading a line of memory.jsonl: bridge/firmware/sync_protocol.h:96-102, 182-233, and the layout in
// which firmware/genesis-mini/src/agent_runtime.cpp:181-199 writes it.
module MemoryRecord {
  import opened Prelude
  import opened Decimal
  import opened SyncCursor
  import opened JsonText

  datatype MemoryLine = MemoryLine(ts: int, role: string, text: string, uptimeClock: bool, ok: bool)

  const BLANK_LINE := MemoryLine(0, "", "", false, false)

  function TrimEnd(s: string): (r: string)
    ensures r <= s
    ensures r != "" ==> !IsWs(r[|r| - 1])
    ensures forall k :: |r| <= k < |s| ==> IsWs(s[k])
  {
    if s != "" && IsWs(s[|s| - 1]) then TrimEnd(s[..|s| - 1]) else s
  }

  // An optional minus sign and the digits after it; without digits the field keeps its zero.
  function IntegerAt(s: string, pos: nat): int
    requires pos <= |s|
  {
    var start := if pos < |s| && s[pos] == '-' then pos + 1 else pos;
    var magnitude: int := Value(s[start..RunEnd(s, start, Digit)]);
    if start > pos then -magnitude else magnitude
  }

  // The string value of the first "key"; a missing closing quote is not noticed.
  function FieldText(s: string, key: string): string
  {
    var at := ValueAt(s, key, 0);
    if at.None? then "" else ReadString(s, at.value).text
  }

  function MemoryLineOf(raw: string): MemoryLine
  {
    var s := TrimEnd(raw);
    if s == "" then BLANK_LINE
    else
      var ts := ValueAt(s, "ts", 0);
      var clock := ValueAt(s, "clock", 0);
      var role, text := FieldText(s, "role"), FieldText(s, "text");
      MemoryLine(if ts.None? then 0 else IntegerAt(s, ts.value), role, text,
                 clock.Some? &&
                 ReadString(s, clock.value) == ReadString(s, clock.value).(closed := true, text := "uptime"),
                 role != "" && text != "")
  }

  lemma ValueGrows(s: string, first: nat, pos: nat)
    requires first <= pos < |s| && AllDigits(s[first..pos]) && IsDigit(s[pos])
    ensures AllDigits(s[first..pos + 1]) && Value(s[first..pos + 1]) == 10 * Value(s[first..pos]) + DigitValue(s[pos])
  {
    assert s[first..pos + 1][..pos - first] == s[first..pos];
  }

  method ParseInteger(s: string, start: nat) returns (v: int)
    requires start <= |s|
    ensures v == IntegerAt(s, start)
  {
    var pos, neg := start, false;
    if pos < |s| && s[pos] == '-' {
      neg, pos := true, pos + 1;
    }
    ghost var first := pos;
    v := 0;
    while pos < |s| && IsDigit(s[pos])
      invariant first <= pos <= |s|
      invariant RunEnd(s, pos, Digit) == RunEnd(s, first, Digit)
      invariant AllDigits(s[first..pos]) && v == Value(s[first..pos])
    {
      ValueGrows(s, first, pos);
      v := v * 10 + DigitValue(s[pos]);
      pos := pos + 1;
    }
    v := if neg then -v else v;
  }

  method ParseMemoryLine(raw: string) returns (line: MemoryLine)
    ensures line == MemoryLineOf(raw)
  {
    line := BLANK_LINE;
    var trimmed := raw;
    while trimmed != "" && IsWs(trimmed[|trimmed| - 1])
      invariant TrimEnd(trimmed) == TrimEnd(raw)
      decreases |trimmed|
    {
      trimmed := trimmed[..|trimmed| - 1];
    }
    if trimmed == "" {
      return;
    }
    var found, pos := FindKey(trimmed, "ts", 0);
    if found {
      var v := ParseInteger(trimmed, pos);
      line := line.(ts := v);
    }
    var closed, value;
    found, pos := FindKey(trimmed, "role", 0);
    if found {
      closed, pos, value := ParseJsonString(trimmed, pos);
      line := line.(role := value);
    }
    found, pos := FindKey(trimmed, "text", 0);
    if found {
      closed, pos, value := ParseJsonString(trimmed, pos);
      line := line.(text := value);
    }
    found, pos := FindKey(trimmed, "clock", 0);
    if found {
      closed, pos, value := ParseJsonString(trimmed, pos);
      if closed && value == "uptime" {
        line := line.(uptimeClock := true);
      }
    }
    line := line.(ok := line.role != "" && line.text != "");
  }

  // ---- Records as the device writes them ----

  datatype Role = User | Assistant

  datatype Record = Record(ts: nat, uptime: bool, role: Role, text: string)

  function RoleName(r: Role): string { if r == User then "user" else "assistant" }

  function Head(r: Record): string
  {
    "{\"ts\":" + ToString(r.ts) + (if r.uptime then ",\"clock\":\"uptime\"," else ",")
  }

  function RoleField(r: Record): string { "\"role\":\"" + RoleName(r.role) + "\"," }

  function RecordLine(r: Record): string
  {
    Head(r) + (RoleField(r) + ("\"text\":" + (("\"" + (Escaped(r.text) + "\"")) + "}")))
  }

  // In s, no quote of [lo, hi) is followed by c.
  predicate Quiet(s: string, lo: nat, hi: nat, c: char)
  {
    hi <= |s| && forall k {:trigger s[k]} :: lo <= k < hi && s[k] == '"' ==> k + 1 < |s| && s[k + 1] != c
  }

  // A text that ends in something else than a quote is quiet wherever it stands.
  lemma QuietPart(s: string, i: nat, part: string, c: char)
    requires HoldsAt(s, i, part) && Quiet(part, 0, |part|, c)
    ensures Quiet(s, i, i + |part|, c)
  {
    HeldChars(s, i, part);
    forall k | i <= k < i + |part| && s[k] == '"'
      ensures k + 1 < |s| && s[k + 1] != c
    {
      assert part[k - i] == '"';
      assert part[k - i + 1] != c;
    }
  }

  lemma QuietNoKey(s: string, lo: nat, hi: nat, key: string)
    requires key != "" && Quiet(s, lo, hi, key[0])
    ensures forall k :: lo <= k < hi ==> !HoldsAt(s, k, "\"" + key + "\"")
  {
    var needle := "\"" + key + "\"";
    forall k | lo <= k < hi
      ensures !HoldsAt(s, k, needle)
    {
      HeldChars(s, k, needle);
      assert needle[0] == '"' && needle[1] == key[0];
    }
  }

  // A key written at `at`, with no earlier needle, is the one found.
  lemma KeyFound(s: string, key: string, at: nat)
    requires HoldsAt(s, at, "\"" + key + "\":") && at + |key| + 3 < |s| && !IsWs(s[at + |key| + 3])
    requires forall k :: 0 <= k < at ==> !HoldsAt(s, k, "\"" + key + "\"")
    ensures ValueAt(s, key, 0) == Some(at + |key| + 3)
  {
    var needle := "\"" + key + "\"";
    assert "\"" + key + "\":" == needle + ":";
    HoldsSplit(s, at, needle, ":");
    HeldChars(s, at + |needle|, ":");
    assert Find(s, needle, 0) == Some(at);
    RunEndIs(s, at + |needle|, at + |needle|, Blank);
    RunEndIs(s, at + |needle| + 1, at + |needle| + 1, Blank);
  }

  // ---- Where things stand in a record line ----

  function RoleAt(r: Record): nat { |Head(r)| }
  function TextAt(r: Record): nat { |Head(r)| + |RoleField(r)| }
  function CloseAt(r: Record): nat { TextAt(r) + 8 + |Escaped(r.text)| }

  lemma Layout(r: Record)
    ensures var s := RecordLine(r);
            && |s| == CloseAt(r) + 2 && s[CloseAt(r)] == '"' && s[CloseAt(r) + 1] == '}'
            && HoldsAt(s, 0, Head(r))
            && HoldsAt(s, RoleAt(r), RoleField(r))
            && HoldsAt(s, TextAt(r), "\"text\":")
            && s[TextAt(r) + 7] == '"'
            && HoldsAt(s, TextAt(r) + 8, Escaped(r.text) + "\"")
  {
    var s := RecordLine(r);
    hide HoldsAt, Head, RoleField, Escaped;
    var quoted := "\"" + (Escaped(r.text) + "\"");
    var text := "\"text\":" + (quoted + "}");
    Whole(s);
    HoldsSplit(s, 0, Head(r), RoleField(r) + text);
    HoldsSplit(s, RoleAt(r), RoleField(r), text);
    HoldsSplit(s, TextAt(r), "\"text\":", quoted + "}");
    HoldsSplit(s, TextAt(r) + 7, quoted, "}");
    HoldsSplit(s, TextAt(r) + 7, "\"", Escaped(r.text) + "\"");
    HoldsSplit(s, TextAt(r) + 8, Escaped(r.text), "\"");
    QuoteAt(s, TextAt(r) + 7);
    QuoteAt(s, CloseAt(r));
    HeldChars(s, CloseAt(r) + 1, "}");
    assert "}"[0] == '}';
  }

  lemma Whole(s: string)
    ensures HoldsAt(s, 0, s)
  {
  }

  // Quotes of the head are followed by the first letters of its own keys and value, or by punctuation.
  lemma HeadParts(r: Record)
    ensures var s := RecordLine(r);
            var after := 6 + |ToString(r.ts)|;
            && HoldsAt(s, 0, "{\"ts\":") && HoldsAt(s, 6, ToString(r.ts))
            && RoleAt(r) == after + (if r.uptime then 18 else 1)
            && HoldsAt(s, after, if r.uptime then ",\"clock\":\"uptime\"," else ",")
  {
    var s, digits := RecordLine(r), ToString(r.ts);
    Layout(r);
    hide HoldsAt, RoleField, Escaped;
    var rest := if r.uptime then ",\"clock\":\"uptime\"," else ",";
    assert Head(r) == "{\"ts\":" + (digits + rest);
    HoldsSplit(s, 0, "{\"ts\":", digits + rest);
    HoldsSplit(s, 6, digits, rest);
  }

  lemma HeadQuiet(r: Record)
    ensures var s := RecordLine(r);
            Quiet(s, 0, RoleAt(r), 'r') && Quiet(s, 2, RoleAt(r), 't') && (!r.uptime ==> Quiet(s, 0, RoleAt(r), 'c'))
  {
    var s := RecordLine(r);
    HeadParts(r);
    var after := 6 + |ToString(r.ts)|;
    hide HoldsAt, RecordLine, Head;
    var rest := if r.uptime then ",\"clock\":\"uptime\"," else ",";
    QuietPart(s, 0, "{\"ts\":", 'r');
    QuietPart(s, 6, ToString(r.ts), 'r');
    QuietPart(s, after, rest, 'r');
    QuietPart(s, 6, ToString(r.ts), 't');
    QuietPart(s, after, rest, 't');
    if !r.uptime {
      QuietPart(s, 0, "{\"ts\":", 'c');
      QuietPart(s, 6, ToString(r.ts), 'c');
      QuietPart(s, after, rest, 'c');
    }
    HeldChars(s, 0, "{\"ts\":");
    assert "{\"ts\":"[2] == 't' && "{\"ts\":"[3] == 's' && "{\"ts\":"[4] == '"' && "{\"ts\":"[5] == ':';
    assert Quiet(s, 2, 6, 't');
  }

  lemma RoleFieldQuiet(r: Record, c: char)
    requires c == 't' || c == 'c'
    ensures Quiet(RoleField(r), 0, |RoleField(r)|, c)
    ensures Quiet("\"text\":", 0, 7, 'c')
  {
    var f := RoleField(r);
    if r.role == User {
      assert f == "\"role\":\"user\",";
    } else {
      assert f == "\"role\":\"assistant\",";
    }
  }

  lemma RoleQuiet(r: Record)
    ensures var s := RecordLine(r);
            && Quiet(s, RoleAt(r), TextAt(r), 't') && Quiet(s, RoleAt(r), TextAt(r), 'c')
            && Quiet(s, TextAt(r), TextAt(r) + 7, 'c')
  {
    var s := RecordLine(r);
    Layout(r);
    hide HoldsAt, RecordLine, Head, Quiet, RoleField;
    RoleFieldQuiet(r, 't');
    RoleFieldQuiet(r, 'c');
    QuietPart(s, RoleAt(r), RoleField(r), 't');
    QuietPart(s, RoleAt(r), RoleField(r), 'c');
    QuietPart(s, TextAt(r), "\"text\":", 'c');
  }

  lemma RoleParts(r: Record)
    ensures var s := RecordLine(r);
            && HoldsAt(s, RoleAt(r), "\"role\":") && RoleAt(r) + 8 < |s| && s[RoleAt(r) + 7] == '"'
            && HoldsAt(s, RoleAt(r) + 8, Escaped(RoleName(r.role)) + "\"")
  {
    var s := RecordLine(r);
    Layout(r);
    hide HoldsAt, RecordLine, Head, Escaped;
    RoleNameEscaped(r.role);
    var value := RoleName(r.role) + "\"";
    assert RoleField(r) == "\"role\":" + ("\"" + (value + ",")) by { hide RoleName; }
    hide RoleName, RoleField;
    HoldsSplit(s, RoleAt(r), "\"role\":", "\"" + (value + ","));
    HoldsSplit(s, RoleAt(r) + 7, "\"", value + ",");
    HoldsSplit(s, RoleAt(r) + 8, value, ",");
    QuoteAt(s, RoleAt(r) + 7);
  }

  lemma {:induction false} PlainEscaped(t: string)
    requires forall k :: 0 <= k < |t| ==> t[k] as int >= 0x20 && t[k] != '"' && t[k] != '\\'
    ensures Escaped(t) == t && Garbled(t) == t
  {
    if t != "" {
      PlainEscaped(t[1..]);
      assert t == [t[0]] + t[1..];
    }
  }

  lemma RoleNameEscaped(role: Role)
    ensures Escaped(RoleName(role)) == RoleName(role) == Garbled(RoleName(role))
  {
    PlainEscaped(RoleName(role));
  }

  // Inside escaped text every quote has a backslash before it.
  lemma {:induction false} QuotesEscaped(t: string)
    ensures forall k :: 0 <= k < |Escaped(t)| && Escaped(t)[k] == '"' ==> k > 0 && Escaped(t)[k - 1] == '\\'
  {
    if t != "" {
      QuotesEscaped(t[1..]);
      var e := EscapeByte(t[0]);
      forall k | 0 <= k < |Escaped(t)| && Escaped(t)[k] == '"'
        ensures k > 0 && Escaped(t)[k - 1] == '\\'
      {
        if k >= |e| {
          assert Escaped(t)[k] == Escaped(t[1..])[k - |e|];
          assert Escaped(t)[k - 1] == Escaped(t[1..])[k - |e| - 1];
        }
      }
    }
  }

  // ---- Each field of a record line is found ----

  lemma DigitsEnd(r: Record)
    ensures var s, stop := RecordLine(r), 6 + |ToString(r.ts)|;
            stop < |s| && s[stop] == ',' && s[6..stop] == ToString(r.ts) && IsDigit(s[6])
  {
    var s, digits := RecordLine(r), ToString(r.ts);
    HeadParts(r);
    hide RecordLine, Head, ToString;
    var rest := if r.uptime then ",\"clock\":\"uptime\"," else ",";
    HeldChars(s, 6 + |digits|, rest);
    assert rest[0] == ',';
    HeldChars(s, 6, digits);
    assert s[6] == digits[0];
  }

  lemma TsKey(s: string)
    requires HoldsAt(s, 0, "{\"ts\":") && |s| > 6 && IsDigit(s[6])
    ensures ValueAt(s, "ts", 0) == Some(6)
  {
    assert "{\"ts\":" == "{" + "\"ts\":";
    HoldsSplit(s, 0, "{", "\"ts\":");
    HeldChars(s, 0, "{");
    assert "{"[0] == '{';
    var needle := "\"" + "ts" + "\"";
    assert "\"" + "ts" + "\":" == "\"ts\":";
    HeldChars(s, 0, needle);
    assert needle[0] == '"';
    hide HoldsAt;
    KeyFound(s, "ts", 1);
  }

  lemma TsFound(r: Record)
    ensures var s := RecordLine(r);
            ValueAt(s, "ts", 0) == Some(6) && IntegerAt(s, 6) == r.ts
  {
    var s := RecordLine(r);
    HeadParts(r);
    DigitsEnd(r);
    hide RecordLine, Head, HoldsAt, ValueAt, Value, ToString;
    TsKey(s);
    RunEndIs(s, 6, 6 + |ToString(r.ts)|, Digit);
    ValueOfToString(r.ts);
  }

  lemma RoleFound(r: Record)
    ensures FieldText(RecordLine(r), "role") == RoleName(r.role)
  {
    var s := RecordLine(r);
    HeadQuiet(r);
    RoleParts(r);
    hide RecordLine, Head, RoleField, Quiet, HoldsAt;
    assert "role"[0] == 'r';
    QuietNoKey(s, 0, RoleAt(r), "role");
    assert "\"" + "role" + "\":" == "\"role\":";
    KeyFoundAt(s, "role", RoleAt(r));
    ReadEscaped(s, RoleAt(r) + 8, RoleName(r.role));
    RoleNameEscaped(r.role);
  }

  lemma KeyFoundAt(s: string, key: string, at: nat)
    requires HoldsAt(s, at, "\"" + key + "\":") && at + |key| + 3 < |s| && s[at + |key| + 3] == '"'
    requires forall k :: 0 <= k < at ==> !HoldsAt(s, k, "\"" + key + "\"")
    ensures ValueAt(s, key, 0) == Some(at + |key| + 3)
    ensures ReadString(s, at + |key| + 3) == ReadChars(s, at + |key| + 4)
  {
    KeyFound(s, key, at);
  }

  lemma NoTextInTs(s: string)
    requires HoldsAt(s, 0, "{\"ts\":")
    ensures !HoldsAt(s, 0, "\"" + "text" + "\"") && !HoldsAt(s, 1, "\"" + "text" + "\"")
  {
    var needle := "\"" + "text" + "\"";
    HeldChars(s, 0, "{\"ts\":");
    assert "{\"ts\":"[0] == '{' && "{\"ts\":"[3] == 's';
    HeldChars(s, 0, needle);
    HeldChars(s, 1, needle);
    assert needle[0] == '"' && needle[2] == 'e';
  }

  lemma NoTextBefore(r: Record)
    ensures forall k :: 0 <= k < TextAt(r) ==> !HoldsAt(RecordLine(r), k, "\"" + "text" + "\"")
  {
    var s := RecordLine(r);
    HeadParts(r);
    HeadQuiet(r);
    RoleQuiet(r);
    hide RecordLine, Head, RoleField, Quiet, HoldsAt;
    NoTextInTs(s);
    assert "text"[0] == 't';
    QuietNoKey(s, 2, RoleAt(r), "text");
    QuietNoKey(s, RoleAt(r), TextAt(r), "text");
  }

  lemma TextFound(r: Record)
    ensures FieldText(RecordLine(r), "text") == Garbled(r.text)
  {
    var s := RecordLine(r);
    NoTextBefore(r);
    Layout(r);
    hide RecordLine, Head, RoleField, HoldsAt, ValueAt, ReadString, Escaped;
    assert "\"" + "text" + "\":" == "\"text\":";
    KeyFoundAt(s, "text", TextAt(r));
    ReadEscaped(s, TextAt(r) + 8, r.text);
  }

  lemma ClockParts(r: Record)
    requires r.uptime
    ensures var s := RecordLine(r);
            var after := 6 + |ToString(r.ts)|;
            && HoldsAt(s, after, ",") && HoldsAt(s, after + 1, "\"clock\":") && s[after + 9] == '"'
            && HoldsAt(s, after + 10, "uptime" + "\"")
  {
    var s := RecordLine(r);
    HeadParts(r);
    hide RecordLine, Head, HoldsAt;
    var after := 6 + |ToString(r.ts)|;
    var value := "uptime" + "\"";
    assert ",\"clock\":\"uptime\"," == "," + ("\"clock\":" + ("\"" + (value + ",")));
    HoldsSplit(s, after, ",", "\"clock\":" + ("\"" + (value + ",")));
    HoldsSplit(s, after + 1, "\"clock\":", "\"" + (value + ","));
    HoldsSplit(s, after + 9, "\"", value + ",");
    HoldsSplit(s, after + 10, value, ",");
    QuoteAt(s, after + 9);
  }

  lemma ClockHeadQuiet(r: Record)
    requires r.uptime
    ensures Quiet(RecordLine(r), 0, 7 + |ToString(r.ts)|, 'c')
  {
    var s, digits := RecordLine(r), ToString(r.ts);
    HeadParts(r);
    ClockParts(r);
    hide RecordLine, Head, HoldsAt;
    QuietPart(s, 0, "{\"ts\":", 'c');
    QuietPart(s, 6, digits, 'c');
    QuietPart(s, 6 + |digits|, ",", 'c');
  }

  lemma ReadUptime(s: string, at: nat)
    requires 0 < at <= |s| && s[at - 1] == '"' && HoldsAt(s, at, "uptime" + "\"")
    ensures ReadString(s, at - 1).closed && ReadString(s, at - 1).text == "uptime"
  {
    hide HoldsAt, ReadChars;
    PlainEscaped("uptime");
    ReadEscaped(s, at, "uptime");
  }

  // With a clock field the key is found at its place.
  lemma ClockFound(r: Record)
    requires r.uptime
    ensures var s := RecordLine(r);
            var at := ValueAt(s, "clock", 0);
            at.Some? && ReadString(s, at.value).closed && ReadString(s, at.value).text == "uptime"
  {
    var s, digits := RecordLine(r), ToString(r.ts);
    HeadParts(r);
    ClockParts(r);
    var after := 6 + |digits|;
    hide RecordLine, Head, HoldsAt, ValueAt, ReadString, ReadChars;
    ClockHeadQuiet(r);
    assert "clock"[0] == 'c' && "\"" + "clock" + "\":" == "\"clock\":";
    QuietNoKey(s, 0, after + 1, "clock");
    KeyFoundAt(s, "clock", after + 1);
    ReadUptime(s, after + 10);
  }

  // Without a clock field the needle can only arise as the tail of the text, where no colon follows.
  lemma ClockAbsent(r: Record)
    requires !r.uptime
    ensures ValueAt(RecordLine(r), "clock", 0) == None
  {
    var s := RecordLine(r);
    HeadQuiet(r);
    RoleQuiet(r);
    Layout(r);
    hide RecordLine, Head, RoleField, Quiet;
    assert "clock"[0] == 'c';
    QuietNoKey(s, 0, RoleAt(r), "clock");
    QuietNoKey(s, RoleAt(r), TextAt(r), "clock");
    QuietNoKey(s, TextAt(r), TextAt(r) + 7, "clock");
    var needle := "\"" + "clock" + "\"";
    assert needle == "\"clock\"";
    var at := Find(s, needle, 0);
    if at.Some? {
      NeedleEndsText(r, "clock", at.value);
      hide *;
      NoColon(s, "clock", at.value);
    }
  }

  // A needle with a brace right behind it gives no value.
  lemma NoColon(s: string, key: string, at: nat)
    requires Find(s, "\"" + key + "\"", 0) == Some(at) && at + |key| + 2 < |s| && s[at + |key| + 2] == '}'
    ensures ValueAt(s, key, 0) == None
  {
    hide Find, RunEnd, HoldsAt;
    var colon := at + |key| + 2;
    RunEndIs(s, colon, colon, Blank);
    assert RunEnd(s, colon, Blank) == colon;
  }

  // A needle that starts in the text field ends at the closing quote, where no colon follows.
  lemma NeedleEndsText(r: Record, key: string, at: nat)
    requires TextAt(r) + 7 <= at && HoldsAt(RecordLine(r), at, "\"" + key + "\"")
    requires 2 <= |key| && (forall k :: 0 <= k < |key| ==> key[k] != '"' && key[k] != '\\' && key[k] != '}')
    ensures at + |key| + 1 == CloseAt(r) && at + |key| + 2 < |RecordLine(r)| && RecordLine(r)[at + |key| + 2] == '}'
  {
    var s, needle := RecordLine(r), "\"" + key + "\"";
    Layout(r);
    HeldChars(s, at, needle);
    hide RecordLine, Head, RoleField, Escaped;
    assert needle[|key|] == key[|key| - 1] && needle[|key| + 1] == '"' && needle[1] == key[0];
    if at + |key| + 1 < CloseAt(r) {
      QuoteInText(r, at + |key| + 1);
    }
  }

  lemma QuoteInText(r: Record, p: nat)
    requires TextAt(r) + 8 <= p < CloseAt(r) < |RecordLine(r)| && RecordLine(r)[p] == '"'
    ensures TextAt(r) + 8 < p && RecordLine(r)[p - 1] == '\\'
  {
    var s, e, k := RecordLine(r), Escaped(r.text), p - (TextAt(r) + 8);
    Layout(r);
    HeldChars(s, TextAt(r) + 8, e + "\"");
    QuotesEscaped(r.text);
    assert (e + "\"")[k] == e[k];
    if k > 0 {
      assert (e + "\"")[k - 1] == e[k - 1];
    }
  }

  // Reading back a record line gives its fields. The text comes back as the reader garbles it, so in full
  // exactly when it has no control byte but tab, LF and CR.
  lemma RecordRecovered(r: Record)
    ensures MemoryLineOf(RecordLine(r)) == MemoryLine(r.ts, RoleName(r.role), Garbled(r.text), r.uptime, r.text != "")
    ensures MemoryLineOf(RecordLine(r)).text == r.text <==> Clean(r.text)
  {
    var s := RecordLine(r);
    Layout(r);
    assert TrimEnd(s) == s && s != "" by {
      hide Head, RoleField, HoldsAt, RecordLine;
      assert s[|s| - 1] == '}';
    }
    TsFound(r);
    RoleFound(r);
    TextFound(r);
    if r.uptime { ClockFound(r); } else { ClockAbsent(r); }
    GarbledExact(r.text);
    hide RecordLine, FieldText, ValueAt, ReadString, IntegerAt;
  }
}
