// The body of POST /api/v1/memory/add: bridge/firmware/sync_protocol.h:269-320.
module AddPayload {
  import opened Prelude
  import opened Decimal
  import opened SyncCursor
  import opened JsonText
  import opened MemoryRecord

  datatype SyncMessage = SyncMessage(senderId: string, role: string, timestampMs: int, content: string)

  const APP_ID := "genesis-mini"

  predicate ShouldIncludeInBatch(line: MemoryLine) { line.ok && !line.uptimeClock }

  function ToSyncMessage(line: MemoryLine, deviceId: string): SyncMessage
  {
    SyncMessage(deviceId, line.role, if line.ts > 0 then line.ts else 1, line.text)
  }

  function IntText(n: int): string { if n < 0 then "-" + ToString(-n) else ToString(n) }

  // A literal that ends with an opening quote, the escaped text and the closing quote.
  function Quoted(lead: string, t: string): string { lead + (Escaped(t) + "\"") }

  function MessageText(m: SyncMessage): string
  {
    Quoted("{\"sender_id\":\"", m.senderId) + (Quoted(",\"role\":\"", m.role) +
    (",\"timestamp\":" + (IntText(m.timestampMs) + (Quoted(",\"content\":\"", m.content) + "}"))))
  }

  function MessageTexts(ms: seq<SyncMessage>): string
  {
    if ms == [] then ""
    else if |ms| == 1 then MessageText(ms[0])
    else MessageText(ms[0]) + ("," + MessageTexts(ms[1..]))
  }

  function AddText(sessionId: string, deviceId: string, messages: seq<SyncMessage>): string
  {
    Quoted("{\"session_id\":\"", sessionId) + (Quoted(",\"app_id\":\"", APP_ID) +
    (Quoted(",\"project_id\":\"", deviceId) + (",\"messages\":[" + (MessageTexts(messages) + "]}"))))
  }

  method AppendQuoted(out: string, lead: string, t: string) returns (longer: string)
    ensures longer == out + Quoted(lead, t)
  {
    var e := JsonEscape(t);
    longer := out + lead + e + "\"";
  }

  method AppendMessage(out: string, m: SyncMessage) returns (longer: string)
    ensures longer == out + MessageText(m)
  {
    hide Quoted, IntText;
    longer := AppendQuoted(out, "{\"sender_id\":\"", m.senderId);
    longer := AppendQuoted(longer, ",\"role\":\"", m.role);
    longer := longer + ",\"timestamp\":" + IntText(m.timestampMs);
    longer := AppendQuoted(longer, ",\"content\":\"", m.content);
    longer := longer + "}";
  }

  lemma {:induction false} MessageTextsSnoc(ms: seq<SyncMessage>, m: SyncMessage)
    ensures MessageTexts(ms + [m]) == MessageTexts(ms) + (if ms == [] then "" else ",") + MessageText(m)
  {
    hide MessageText;
    if ms == [] {
      assert ms + [m] == [m];
    } else {
      assert (ms + [m])[1..] == ms[1..] + [m];
      MessageTextsSnoc(ms[1..], m);
    }
  }

  lemma AppIdPlain()
    ensures Escaped(APP_ID) == APP_ID
  {
    hide Escaped, Garbled;
    PlainEscaped(APP_ID);
  }

  lemma AppendedMessage(out: string, messages: seq<SyncMessage>, i: nat)
    requires i < |messages|
    ensures out + MessageTexts(messages[..i + 1]) ==
            out + MessageTexts(messages[..i]) + (if i == 0 then "" else ",") + MessageText(messages[i])
  {
    hide MessageText, MessageTexts;
    MessageTextsSnoc(messages[..i], messages[i]);
    assert messages[..i] + [messages[i]] == messages[..i + 1];
    var a, sep, t := MessageTexts(messages[..i]), if i == 0 then "" else ",", MessageText(messages[i]);
    assert out + (a + sep + t) == out + a + sep + t;
  }

  method AppendMessages(out: string, messages: seq<SyncMessage>) returns (longer: string)
    ensures longer == out + MessageTexts(messages)
  {
    longer := out;
    assert messages[..0] == [] && out + "" == out;
    for i := 0 to |messages|
      invariant longer == out + MessageTexts(messages[..i])
    {
      hide MessageText, MessageTexts;
      AppendedMessage(out, messages, i);
      assert i == 0 ==> longer + "" == longer;
      if i > 0 {
        longer := longer + ",";
      }
      longer := AppendMessage(longer, messages[i]);
    }
    assert messages[..|messages|] == messages;
  }

  method BuildMemorizeAddJson(sessionId: string, deviceId: string, messages: seq<SyncMessage>) returns (out: string)
    ensures out == AddText(sessionId, deviceId, messages)
  {
    hide MessageTexts, Escaped;
    AppIdPlain();
    out := AppendQuoted("", "{\"session_id\":\"", sessionId);
    out := out + (",\"app_id\":\"" + (APP_ID + "\""));
    out := AppendQuoted(out, ",\"project_id\":\"", deviceId);
    out := out + ",\"messages\":[";
    out := AppendMessages(out, messages);
    out := out + "]}";
  }

  // ---- A reader of the same document, built on a conforming string reader ----

  function Expect(s: string, i: nat, lit: string): (r: Option<nat>)
    ensures r.Some? ==> i <= r.value <= |s|
  {
    if HoldsAt(s, i, lit) then Some(i + |lit|) else None
  }

  function QuotedAt(s: string, i: nat, lead: string): (r: Option<(string, nat)>)
    ensures r.Some? ==> i < r.value.1 <= |s|
  {
    var start :- Expect(s, i, lead);
    RfcRead(s, start)
  }

  function IntAt(s: string, i: nat): (r: Option<(int, nat)>)
    requires i <= |s|
    ensures r.Some? ==> i < r.value.1 <= |s|
  {
    var start := if i < |s| && s[i] == '-' then i + 1 else i;
    var stop := RunEnd(s, start, Digit);
    if start == stop then None else Some((IntegerAt(s, i), stop))
  }

  function MessageAt(s: string, i: nat): (r: Option<(SyncMessage, nat)>)
    ensures r.Some? ==> i < r.value.1 <= |s|
  {
    var (sender, a) :- QuotedAt(s, i, "{\"sender_id\":\"");
    var (role, b) :- QuotedAt(s, a, ",\"role\":\"");
    var c :- Expect(s, b, ",\"timestamp\":");
    var (ts, d) :- IntAt(s, c);
    var (content, e) :- QuotedAt(s, d, ",\"content\":\"");
    var f :- Expect(s, e, "}");
    Some((SyncMessage(sender, role, ts, content), f))
  }

  function MessagesAt(s: string, i: nat): Option<(seq<SyncMessage>, nat)>
    decreases |s| - i
  {
    var (m, a) :- MessageAt(s, i);
    if Expect(s, a, ",").None? then Some(([m], a))
    else
      var (ms, b) :- MessagesAt(s, a + 1);
      Some(([m] + ms, b))
  }

  function DecodeAdd(s: string): Option<(string, string, string, seq<SyncMessage>)>
  {
    var (session, a) :- QuotedAt(s, 0, "{\"session_id\":\"");
    var (app, b) :- QuotedAt(s, a, ",\"app_id\":\"");
    var (project, c) :- QuotedAt(s, b, ",\"project_id\":\"");
    var d :- Expect(s, c, ",\"messages\":[");
    var (ms, e) :- if Expect(s, d, "]").Some? then Some(([], d)) else MessagesAt(s, d);
    var f :- Expect(s, e, "]}");
    if f == |s| then Some((session, app, project, ms)) else None
  }

  // ---- Every payload decodes to exactly what was put in ----

  lemma QuotedBack(s: string, i: nat, lead: string, t: string)
    requires HoldsAt(s, i, Quoted(lead, t))
    ensures QuotedAt(s, i, lead) == Some((t, i + |Quoted(lead, t)|))
  {
    HoldsSplit(s, i, lead, Escaped(t) + "\"");
    hide Escaped, HoldsAt, RfcRead;
    EscapedIsRfc(s, i + |lead|, t);
  }

  lemma IntBack(s: string, i: nat, n: int)
    requires HoldsAt(s, i, IntText(n)) && i + |IntText(n)| < |s| && !IsDigit(s[i + |IntText(n)|])
    ensures IntAt(s, i) == Some((n, i + |IntText(n)|))
  {
    var digits := ToString(if n < 0 then -n else n);
    var start := if n < 0 then i + 1 else i;
    ValueOfToString(if n < 0 then -n else n);
    if n < 0 {
      HoldsSplit(s, i, "-", digits);
      HeldChars(s, i, "-");
      assert s[i] == "-"[0];
    }
    hide ToString, Value;
    DigitRun(s, start, digits);
  }

  lemma DigitRun(s: string, start: nat, digits: string)
    requires digits != "" && AllDigits(digits) && HoldsAt(s, start, digits)
    requires start + |digits| < |s| && !IsDigit(s[start + |digits|])
    ensures RunEnd(s, start, Digit) == start + |digits| && s[start..start + |digits|] == digits && s[start] != '-'
  {
    HeldChars(s, start, digits);
    assert s[start] == digits[0];
    RunEndIs(s, start, start + |digits|, Digit);
  }

  lemma MessageBack(s: string, i: nat, m: SyncMessage)
    requires HoldsAt(s, i, MessageText(m))
    ensures MessageAt(s, i) == Some((m, i + |MessageText(m)|))
  {
    hide Quoted, IntText, HoldsAt, IntAt, QuotedAt;
    var p1 := Quoted("{\"sender_id\":\"", m.senderId);
    var p2 := Quoted(",\"role\":\"", m.role);
    var p4 := IntText(m.timestampMs);
    var p5 := Quoted(",\"content\":\"", m.content);
    var q5 := p5 + "}";
    var q4 := p4 + q5;
    var q3 := ",\"timestamp\":" + q4;
    var q2 := p2 + q3;
    HoldsSplit(s, i, p1, q2);
    HoldsSplit(s, i + |p1|, p2, q3);
    HoldsSplit(s, i + |p1| + |p2|, ",\"timestamp\":", q4);
    var c := i + |p1| + |p2| + |",\"timestamp\":"|;
    HoldsSplit(s, c, p4, q5);
    HoldsSplit(s, c + |p4|, p5, "}");
    QuotedBack(s, i, "{\"sender_id\":\"", m.senderId);
    QuotedBack(s, i + |p1|, ",\"role\":\"", m.role);
    CommaAfter(s, c + |p4|, m.content);
    IntBack(s, c, m.timestampMs);
    QuotedBack(s, c + |p4|, ",\"content\":\"", m.content);
  }

  lemma CommaAfter(s: string, i: nat, content: string)
    requires HoldsAt(s, i, Quoted(",\"content\":\"", content))
    ensures i < |s| && s[i] == ','
  {
    var q := Quoted(",\"content\":\"", content);
    HeldChars(s, i, q);
    assert q[0] == ',';
  }

  lemma {:induction false} MessagesBack(s: string, i: nat, ms: seq<SyncMessage>)
    requires ms != [] && HoldsAt(s, i, MessageTexts(ms) + "]}")
    ensures MessagesAt(s, i) == Some((ms, i + |MessageTexts(ms)|))
    decreases |ms|
  {
    hide MessageText, HoldsAt, MessageAt;
    var m := ms[0];
    HoldsSplit(s, i, MessageTexts(ms), "]}");
    if |ms| == 1 {
      assert MessageTexts(ms) == MessageText(m);
      MessageBack(s, i, m);
      CloseNotComma(s, i + |MessageText(m)|);
      assert ms == [m];
    } else {
      var rest := MessageTexts(ms[1..]);
      assert MessageTexts(ms) + "]}" == MessageText(m) + ("," + (rest + "]}"));
      HoldsSplit(s, i, MessageText(m), "," + (rest + "]}"));
      HoldsSplit(s, i + |MessageText(m)|, ",", rest + "]}");
      MessageBack(s, i, m);
      MessagesBack(s, i + |MessageText(m)| + 1, ms[1..]);
      assert ms == [m] + ms[1..];
    }
  }

  lemma CloseNotComma(s: string, i: nat)
    requires HoldsAt(s, i, "]}")
    ensures !HoldsAt(s, i, ",")
  {
    HeldChars(s, i, "]}");
    HeldChars(s, i, ",");
    assert "]}"[0] == ']' && ","[0] == ',';
  }

  // For all inputs the payload is a document from which a conforming reader gets back the session,
  // the application, the project and every message in order, nothing more and nothing less.
  lemma AddPayloadRoundTrip(sessionId: string, deviceId: string, messages: seq<SyncMessage>)
    ensures DecodeAdd(AddText(sessionId, deviceId, messages)) == Some((sessionId, "genesis-mini", deviceId, messages))
  {
    var s := AddText(sessionId, deviceId, messages);
    Whole(s);
    hide Quoted, HoldsAt, QuotedAt, MessageTexts, MessagesAt;
    var p1 := Quoted("{\"session_id\":\"", sessionId);
    var p2 := Quoted(",\"app_id\":\"", APP_ID);
    var p3 := Quoted(",\"project_id\":\"", deviceId);
    var q4 := MessageTexts(messages) + "]}";
    var q3 := ",\"messages\":[" + q4;
    HoldsSplit(s, 0, p1, p2 + (p3 + q3));
    HoldsSplit(s, |p1|, p2, p3 + q3);
    HoldsSplit(s, |p1| + |p2|, p3, q3);
    HoldsSplit(s, |p1| + |p2| + |p3|, ",\"messages\":[", q4);
    QuotedBack(s, 0, "{\"session_id\":\"", sessionId);
    QuotedBack(s, |p1|, ",\"app_id\":\"", APP_ID);
    QuotedBack(s, |p1| + |p2|, ",\"project_id\":\"", deviceId);
    var d := |p1| + |p2| + |p3| + |",\"messages\":["|;
    HoldsSplit(s, d, MessageTexts(messages), "]}");
    ListBack(s, d, messages);
  }

  lemma ListBack(s: string, d: nat, messages: seq<SyncMessage>)
    requires HoldsAt(s, d, MessageTexts(messages) + "]}")
    ensures Expect(s, d, "]").Some? <==> messages == []
    ensures messages == [] ==> MessageTexts(messages) == ""
    ensures messages != [] ==> MessagesAt(s, d) == Some((messages, d + |MessageTexts(messages)|))
  {
    if messages == [] {
      assert "" + "]}" == "]" + "}";
      HoldsSplit(s, d, "]", "}");
    } else {
      MessagesBack(s, d, messages);
      OpensWithBrace(messages);
      HeldChars(s, d, MessageTexts(messages) + "]}");
      HeldChars(s, d, "]");
      assert (MessageTexts(messages) + "]}")[0] == '{' && "]"[0] == ']';
    }
  }

  lemma OpensWithBrace(ms: seq<SyncMessage>)
    requires ms != []
    ensures MessageTexts(ms) != "" && MessageTexts(ms)[0] == '{'
  {
    assert MessageText(ms[0])[0] == '{';
  }
}
