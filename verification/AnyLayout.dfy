// Reading record lines in other layouts than the device's own: blanks around keys and values, signs, lines that
// end in blanks, missing keys: bridge/firmware/sync_protocol.h:104-233.
module AnyLayout {
  import opened Prelude
  import opened Decimal
  import opened SyncCursor
  import opened JsonText
  import opened MemoryRecord

  // s holds `"key"`, blanks, a colon and blanks from `at` on, where no `"key"` stands before, and something else then.
  ghost predicate KeyAt(s: string, key: string, at: nat, b1: string, b2: string)
  {
    && AllBlank(b1) && AllBlank(b2) && HoldsAt(s, at, "\"" + key + "\"" + b1 + ":" + b2)
    && (var stop := at + |key| + 3 + |b1| + |b2|; stop == |s| || !AllBlank([s[stop]]))
    && forall k :: 0 <= k < at ==> !HoldsAt(s, k, "\"" + key + "\"")
  }

  lemma BlankRun(s: string, i: nat, b: string)
    requires HoldsAt(s, i, b) && AllBlank(b) && (i + |b| < |s| ==> !AllBlank([s[i + |b|]]))
    ensures RunEnd(s, i, Blank) == i + |b|
  {
    HeldChars(s, i, b);
    assert forall k :: i <= k < i + |b| ==> s[k] == b[k - i];
    assert i + |b| < |s| ==> [s[i + |b|]][0] == s[i + |b|];
    RunEndIs(s, i, i + |b|, Blank);
  }

  // The value starts behind the blanks.
  lemma ValueBehindBlanks(s: string, key: string, at: nat, b1: string, b2: string)
    requires KeyAt(s, key, at, b1, b2)
    ensures ValueAt(s, key, 0) == Some(at + |key| + 3 + |b1| + |b2|)
  {
    hide RunEnd;
    var needle := "\"" + key + "\"";
    var colon := at + |needle| + |b1|;
    HoldsSplit(s, at, needle + b1 + ":", b2);
    HoldsSplit(s, at, needle + b1, ":");
    HoldsSplit(s, at, needle, b1);
    HeldChars(s, colon, ":");
    assert s[colon] == ":"[0] == ':';
    BlankRun(s, at + |needle|, b1);
    BlankRun(s, colon + 1, b2);
    assert Find(s, needle, 0) == Some(at);
    hide Find, HoldsAt, AllBlank;
  }

  // A sign and digits are read as the number they write, whatever follows.
  lemma IntegerRead(s: string, at: nat, negative: bool, digits: string)
    requires AllDigits(digits) && HoldsAt(s, at, (if negative then "-" else "") + digits)
    requires var stop := at + |digits| + (if negative then 1 else 0);
             stop < |s| ==> !IsDigit(s[stop]) && (digits == "" ==> s[stop] != '-')
    ensures IntegerAt(s, at) == (if negative then -1 else 1) * Value(digits)
  {
    var sign := if negative then "-" else "";
    var start := at + |sign|;
    HoldsSplit(s, at, sign, digits);
    DigitsHeld(s, start, digits);
    SignHeld(s, at, negative, digits);
    hide RunEnd, Value, HoldsAt, AllDigits;
  }

  lemma DigitsHeld(s: string, start: nat, digits: string)
    requires AllDigits(digits) && HoldsAt(s, start, digits)
    requires start + |digits| < |s| ==> !IsDigit(s[start + |digits|])
    ensures start + |digits| <= |s| && RunEnd(s, start, Digit) == start + |digits|
    ensures s[start..RunEnd(s, start, Digit)] == digits
  {
    HeldChars(s, start, digits);
    assert forall k :: start <= k < start + |digits| ==> s[k] == digits[k - start];
    hide RunEnd;
    RunEndIs(s, start, start + |digits|, Digit);
  }

  lemma SignHeld(s: string, at: nat, negative: bool, digits: string)
    requires AllDigits(digits)
    requires HoldsAt(s, at, if negative then "-" else "") && HoldsAt(s, at + if negative then 1 else 0, digits)
    requires !negative && digits == "" && at < |s| ==> s[at] != '-'
    ensures at <= |s| && (at < |s| && s[at] == '-' <==> negative)
  {
    if negative {
      HeldChars(s, at, "-");
      assert "-"[0] == '-';
    } else if digits != "" {
      HeldChars(s, at, digits);
      assert s[at] == digits[0];
    }
  }

  // ---- Whole lines ----

  ghost predicate Missing(s: string, key: string) { forall k :: 0 <= k < |s| ==> !HoldsAt(s, k, "\"" + key + "\"") }

  // The line has no such key, or after the first one stands the quoted escaped text.
  ghost predicate HasText(s: string, key: string, value: Option<string>)
  {
    match value
    case None => Missing(s, key)
    case Some(t) =>
      exists at: nat, b1, b2 ::
        KeyAt(s, key, at, b1, b2) && HoldsAt(s, at + |key| + 3 + |b1| + |b2|, "\"" + (Escaped(t) + "\""))
  }

  // The line has no time, or after its first key stand a sign and digits.
  ghost predicate HasTime(s: string, value: Option<int>)
  {
    match value
    case None => Missing(s, "ts")
    case Some(v) =>
      exists at, b1, b2, negative, digits :: TimeAt(s, at, b1, b2, negative, digits, v)
  }

  ghost predicate TimeAt(s: string, at: nat, b1: string, b2: string, negative: bool, digits: string, v: int)
  {
    var start := at + 5 + |b1| + |b2|;
    && KeyAt(s, "ts", at, b1, b2)
    && digits != "" && AllDigits(digits) && HoldsAt(s, start, (if negative then "-" else "") + digits)
    && (var stop := start + |digits| + (if negative then 1 else 0); stop < |s| ==> !IsDigit(s[stop]))
    && v == (if negative then -1 else 1) * Value(digits)
  }

  function OrEmpty(t: Option<string>): string { if t.None? then "" else Garbled(t.value) }

  // For every line, whatever the order of its keys, the blanks around them and the blanks behind it: time, role and
  // text are those of the first such keys, the clock is uptime exactly when it is written so, and the line counts
  // exactly when it has a role and a text.
  lemma LineRead(s: string, ts: Option<int>, role: Option<string>, text: Option<string>, clock: Option<string>,
                 blanks: string)
    requires s != "" && !AllBlank(s[|s| - 1..]) && AllBlank(blanks)
    requires HasTime(s, ts) && HasText(s, "role", role) && HasText(s, "text", text) && HasText(s, "clock", clock)
    ensures MemoryLineOf(s + blanks) ==
            MemoryLine(if ts.None? then 0 else ts.value, OrEmpty(role), OrEmpty(text), OrEmpty(clock) == "uptime",
                       OrEmpty(role) != "" && OrEmpty(text) != "")
    ensures MemoryLineOf(blanks) == MemoryLine(0, "", "", false, false)
  {
    TrimBlanks("", blanks);
    assert "" + blanks == blanks;
    TrimBlanks(s, blanks);
    hide *;
    TimeRead(s, ts);
    TextRead(s, "role", role);
    TextRead(s, "text", text);
    TextRead(s, "clock", clock);
    LineOf(s + blanks, s);
    LineOf(blanks, "");
  }

  lemma LineOf(raw: string, s: string)
    requires TrimEnd(raw) == s
    ensures MemoryLineOf(raw) ==
            if s == "" then MemoryLine(0, "", "", false, false)
            else
              MemoryLine(if ValueAt(s, "ts", 0).None? then 0 else IntegerAt(s, ValueAt(s, "ts", 0).value),
                         FieldText(s, "role"), FieldText(s, "text"),
                         ValueAt(s, "clock", 0).Some? && ReadString(s, ValueAt(s, "clock", 0).value).closed
                         && FieldText(s, "clock") == "uptime",
                         FieldText(s, "role") != "" && FieldText(s, "text") != "")
  {
    hide TrimEnd, ValueAt, ReadString, IntegerAt;
  }

  lemma {:induction false} TrimBlanks(s: string, blanks: string)
    requires AllBlank(blanks) && (s != "" ==> !AllBlank(s[|s| - 1..]))
    ensures TrimEnd(s + blanks) == s
  {
    if blanks == "" {
      assert s + "" == s;
      assert s != "" ==> s[|s| - 1..] == [s[|s| - 1]];
    } else {
      var n := |blanks| - 1;
      assert (s + blanks)[..|s| + n] == s + blanks[..n] && (s + blanks)[|s| + n] == blanks[n];
      TrimBlanks(s, blanks[..n]);
    }
  }

  lemma NoValue(s: string, key: string)
    requires Missing(s, key)
    ensures ValueAt(s, key, 0) == None
  {
    hide RunEnd;
  }

  lemma TextRead(s: string, key: string, value: Option<string>)
    requires HasText(s, key, value)
    ensures FieldText(s, key) == OrEmpty(value)
    ensures ValueAt(s, key, 0).Some? <==> value.Some?
    ensures value.Some? ==> ReadString(s, ValueAt(s, key, 0).value).closed
  {
    hide KeyAt, HoldsAt, ValueAt, FieldText, ReadString, Missing;
    if value.None? {
      NoText(s, key);
    } else {
      var at: nat, b1, b2 :| KeyAt(s, key, at, b1, b2)
                             && HoldsAt(s, at + |key| + 3 + |b1| + |b2|, "\"" + (Escaped(value.value) + "\""));
      TextReadAt(s, key, at, b1, b2, value.value);
    }
  }

  lemma NoText(s: string, key: string)
    requires Missing(s, key)
    ensures ValueAt(s, key, 0) == None && FieldText(s, key) == ""
  {
    NoValue(s, key);
    hide ValueAt;
  }

  lemma TextReadAt(s: string, key: string, at: nat, b1: string, b2: string, t: string)
    requires KeyAt(s, key, at, b1, b2) && HoldsAt(s, at + |key| + 3 + |b1| + |b2|, "\"" + (Escaped(t) + "\""))
    ensures ValueAt(s, key, 0).Some? && FieldText(s, key) == Garbled(t)
    ensures ReadString(s, ValueAt(s, key, 0).value).closed
  {
    hide KeyAt, ValueAt, HoldsAt, ReadString;
    ValueBehindBlanks(s, key, at, b1, b2);
    QuotedRead(s, at + |key| + 3 + |b1| + |b2|, t);
  }

  lemma QuotedRead(s: string, i: nat, t: string)
    requires HoldsAt(s, i, "\"" + (Escaped(t) + "\""))
    ensures ReadString(s, i).closed && ReadString(s, i).text == Garbled(t)
  {
    HoldsSplit(s, i, "\"", Escaped(t) + "\"");
    QuoteAt(s, i);
    ReadEscaped(s, i + 1, t);
  }

  lemma TimeRead(s: string, value: Option<int>)
    requires HasTime(s, value)
    ensures ValueAt(s, "ts", 0).Some? <==> value.Some?
    ensures value.Some? ==> IntegerAt(s, ValueAt(s, "ts", 0).value) == value.value
  {
    hide TimeAt, ValueAt, IntegerAt, Missing;
    if value.None? {
      NoValue(s, "ts");
    } else {
      var at, b1, b2, negative, digits :| TimeAt(s, at, b1, b2, negative, digits, value.value);
      TimeReadAt(s, at, b1, b2, negative, digits, value.value);
    }
  }

  lemma TimeReadAt(s: string, at: nat, b1: string, b2: string, negative: bool, digits: string, v: int)
    requires TimeAt(s, at, b1, b2, negative, digits, v)
    ensures ValueAt(s, "ts", 0).Some? && IntegerAt(s, ValueAt(s, "ts", 0).value) == v
  {
    hide *;
    assert |"ts"| == 2;
    TimeParts(s, at, b1, b2, negative, digits, v);
    ValueBehindBlanks(s, "ts", at, b1, b2);
    IntegerRead(s, at + 5 + |b1| + |b2|, negative, digits);
  }

  lemma TimeParts(s: string, at: nat, b1: string, b2: string, negative: bool, digits: string, v: int)
    requires TimeAt(s, at, b1, b2, negative, digits, v)
    ensures KeyAt(s, "ts", at, b1, b2) && AllDigits(digits) && digits != ""
    ensures var start := at + 5 + |b1| + |b2|;
            var stop := start + |digits| + (if negative then 1 else 0);
            && HoldsAt(s, start, (if negative then "-" else "") + digits)
            && (stop < |s| ==> !IsDigit(s[stop])) && v == (if negative then -1 else 1) * Value(digits)
  {
    hide KeyAt, HoldsAt, AllDigits, Value;
  }

  // A value whose closing quote is missing keeps what there is of it, except that it never makes a clock.
  lemma OpenLiteral(s: string, key: string, at: nat, b1: string, b2: string, t: string)
    requires KeyAt(s, key, at, b1, b2)
    requires var start := at + |key| + 3 + |b1| + |b2|; start <= |s| && s[start..] == "\"" + Escaped(t)
    ensures FieldText(s, key) == Garbled(t)
    ensures key == "clock" && s != "" && !IsWs(s[|s| - 1]) ==> !MemoryLineOf(s).uptimeClock
  {
    var start := at + |key| + 3 + |b1| + |b2|;
    hide MemoryLineOf, ValueAt, KeyAt, ReadString, AllBlank;
    ValueBehindBlanks(s, key, at, b1, b2);
    OpenRead(s, start, t);
    if key == "clock" && s != "" && !IsWs(s[|s| - 1]) {
      TrimNothing(s);
      LineOf(s, s);
    }
  }

  lemma TrimNothing(s: string)
    requires s != "" && !IsWs(s[|s| - 1])
    ensures TrimEnd(s) == s
  {
  }

  lemma OpenRead(s: string, start: nat, t: string)
    requires start <= |s| && s[start..] == "\"" + Escaped(t)
    ensures ReadString(s, start).text == Garbled(t) && !ReadString(s, start).closed
  {
    hide ReadChars;
    assert s[start] == s[start..][0] == '"';
    assert s[start + 1..] == s[start..][1..] == Escaped(t);
    ReadOpen(s, start + 1, t);
  }

  lemma {:induction false} ReadOpen(s: string, i: nat, t: string)
    requires i <= |s| && s[i..] == Escaped(t)
    ensures ReadChars(s, i) == Read(false, |s|, Garbled(t))
    decreases |t|
  {
    hide *;
    if t == "" {
      ReadEnd(s, i);
    } else {
      var e := EscapeByte(t[0]);
      OpenStep(s, i, t, e);
      ReadOneEscape(s, i, t[0]);
      ReadOpen(s, i + |e|, t[1..]);
      GarbledFirst(t);
      PrefixedIs(GarbledByte(t[0]), |s|, Garbled(t[1..]));
    }
  }

  lemma ReadEnd(s: string, i: nat)
    requires i <= |s| && s[i..] == Escaped("")
    ensures ReadChars(s, i) == Read(false, |s|, Garbled(""))
  {
    assert |s[i..]| == 0;
  }

  lemma PrefixedIs(p: string, n: nat, text: string)
    ensures Prefixed(p, Read(false, n, text)) == Read(false, n, p + text)
  {
  }

  lemma GarbledFirst(t: string)
    requires t != ""
    ensures Garbled(t) == GarbledByte(t[0]) + Garbled(t[1..])
  {
  }

  lemma OpenStep(s: string, i: nat, t: string, e: string)
    requires t != "" && i <= |s| && s[i..] == Escaped(t) && e == EscapeByte(t[0])
    ensures HoldsAt(s, i, e) && i + |e| <= |s| && s[i + |e|..] == Escaped(t[1..])
  {
    hide EscapeByte;
    assert s[i..] == e + Escaped(t[1..]);
    assert s[i..i + |e|] == s[i..][..|e|] == e;
    assert s[i + |e|..] == s[i..][|e|..] == Escaped(t[1..]);
  }

  // ---- Literals that something else wrote ----

  // No \b, \f or \u in the literal from inside which reading starts at i.
  predicate PlainEscapes(s: string, i: nat)
    requires i <= |s|
    decreases |s| - i
  {
    if i == |s| || s[i] == '"' then true
    else if s[i] != '\\' then PlainEscapes(s, i + 1)
    else i + 1 < |s| && s[i + 1] != 'b' && s[i + 1] != 'f' && s[i + 1] != 'u' && PlainEscapes(s, i + 2)
  }

  // Every literal that section 7 of RFC 8259 allows, without these three escapes, is read as the RFC reads it.
  lemma {:induction false} ReadsAsRfc(s: string, i: nat)
    requires i <= |s| && PlainEscapes(s, i) && RfcRead(s, i).Some?
    ensures ReadChars(s, i) == Read(true, RfcRead(s, i).value.1, RfcRead(s, i).value.0)
    decreases |s| - i
  {
    if s[i] != '"' {
      ReadsAsRfc(s, if s[i] == '\\' then i + 2 else i + 1);
    }
  }
}
