// The string escaper, the string reader and the key search: bridge/firmware/sync_protocol.h:104-178, 235-267.
// A byte is the character with that code; nothing below depends on an upper bound for codes.
module JsonText {
  import opened Prelude
  import opened SyncCursor

  // ---- Escaping ----

  // One digit of %04x
  function HexDigit(n: nat): char
    requires n < 16
  {
    if n < 10 then ('0' as int + n) as char else ('a' as int + n - 10) as char
  }

  predicate IsControl(c: char) { c as int < 0x20 && c != '\t' && c != '\n' && c != '\r' }

  // No byte below 0x20 other than tab, LF and CR.
  predicate Clean(t: string) { forall k :: 0 <= k < |t| ==> !IsControl(t[k]) }

  function EscapeByte(c: char): (e: string)
    ensures |e| > 0
  {
    if c == '"' then "\\\""
    else if c == '\\' then "\\\\"
    else if c == '\n' then "\\n"
    else if c == '\r' then "\\r"
    else if c == '\t' then "\\t"
    else if c as int < 0x20 then ['\\', 'u', '0', '0', HexDigit(c as int / 16), HexDigit(c as int % 16)]
    else [c]
  }

  function Escaped(t: string): string
  {
    if t == "" then "" else EscapeByte(t[0]) + Escaped(t[1..])
  }

  method JsonEscape(input: string) returns (out: string)
    ensures out == Escaped(input)
  {
    out := "";
    for i := 0 to |input|
      invariant out + Escaped(input[i..]) == Escaped(input)
    {
      assert input[i..][1..] == input[i + 1..];
      assert out + (EscapeByte(input[i]) + Escaped(input[i + 1..])) ==
             (out + EscapeByte(input[i])) + Escaped(input[i + 1..]);
      out := out + EscapeByte(input[i]);
    }
    assert out + Escaped("") == out;
  }

  // ---- Reading ----

  function Unescape(e: char): char
  {
    if e == 'n' then '\n' else if e == 'r' then '\r' else if e == 't' then '\t' else e
  }

  // `text` is what was collected, `next` where reading stopped, `closed` whether at a closing quote.
  datatype Read = Read(closed: bool, next: nat, text: string)

  // Reading from inside a string literal.
  function ReadChars(s: string, i: nat): (r: Read)
    requires i <= |s|
    ensures i <= r.next <= |s|
    decreases |s| - i
  {
    if i == |s| then Read(false, i, "")
    else if s[i] == '"' then Read(true, i + 1, "")
    else if s[i] == '\\' && i + 1 < |s| then
      Prefixed([Unescape(s[i + 1])], ReadChars(s, i + 2))
    else
      Prefixed([s[i]], ReadChars(s, i + 1))
  }

  function ReadString(s: string, i: nat): Read
  {
    if i < |s| && s[i] == '"' then ReadChars(s, i + 1) else Read(false, i, "")
  }

  // On failure too the caller sees what was collected: the reader of record lines keeps it.
  method ParseJsonString(s: string, start: nat) returns (ok: bool, i: nat, out: string)
    ensures Read(ok, i, out) == ReadString(s, start)
  {
    i, out := start, "";
    if i >= |s| || s[i] != '"' {
      return false, i, out;
    }
    i := i + 1;
    ghost var whole := ReadChars(s, i);
    while i < |s|
      invariant i <= |s|
      invariant whole == Prefixed(out, ReadChars(s, i))
    {
      var c := s[i];
      i := i + 1;
      if c == '"' {
        return true, i, out;
      }
      if c == '\\' && i < |s| {
        c := Unescape(s[i]);
        i := i + 1;
      }
      PrefixedMore(out, c, ReadChars(s, i));
      out := out + [c];
    }
    return false, i, out;
  }

  function Prefixed(p: string, r: Read): Read { r.(text := p + r.text) }

  lemma PrefixedMore(p: string, c: char, r: Read)
    ensures Prefixed(p, Prefixed([c], r)) == Prefixed(p + [c], r)
  {
    assert p + ([c] + r.text) == (p + [c]) + r.text;
  }

  // ---- What the reader makes of escaped text ----

  // The reader has no case for \u: it drops the backslash and keeps the rest.
  function Garbled(t: string): string
  {
    if t == "" then "" else GarbledByte(t[0]) + Garbled(t[1..])
  }

  function GarbledByte(c: char): string { if IsControl(c) then EscapeByte(c)[1..] else [c] }

  lemma {:induction false} GarbledExact(t: string)
    ensures |Garbled(t)| >= |t|
    ensures Garbled(t) == t <==> Clean(t)
    ensures Garbled(t) == "" <==> t == ""
  {
    if t != "" {
      GarbledExact(t[1..]);
      assert t == [t[0]] + t[1..];
      if IsControl(t[0]) {
        assert |Garbled(t)| > |t|;
      } else {
        assert Garbled(t)[1..] == Garbled(t[1..]);
        assert Clean(t) <==> Clean(t[1..]) by {
          assert forall k :: 0 < k < |t| ==> t[k] == t[1..][k - 1];
          assert forall k :: 0 <= k < |t[1..]| ==> t[1..][k] == t[k + 1];
        }
      }
    }
  }

  // s holds `part` at position i.
  predicate HoldsAt(s: string, i: nat, part: string) { i + |part| <= |s| && s[i..i + |part|] == part }

  lemma HeldChars(s: string, i: nat, part: string)
    ensures HoldsAt(s, i, part) ==> forall k {:trigger part[k]} :: 0 <= k < |part| ==> s[i + k] == part[k]
  {
    forall k | HoldsAt(s, i, part) && 0 <= k < |part|
      ensures s[i + k] == part[k]
    {
      assert s[i..i + |part|][k] == s[i + k];
    }
  }

  lemma HoldsSplit(s: string, i: nat, a: string, b: string)
    ensures HoldsAt(s, i, a + b) <==> HoldsAt(s, i, a) && HoldsAt(s, i + |a|, b)
  {
    if HoldsAt(s, i, a + b) {
      assert s[i..i + |a|] == s[i..i + |a + b|][..|a|] == a;
      assert s[i + |a|..i + |a| + |b|] == s[i..i + |a + b|][|a|..] == b;
    }
    if HoldsAt(s, i, a) && HoldsAt(s, i + |a|, b) {
      assert s[i..i + |a + b|] == s[i..i + |a|] + s[i + |a|..i + |a| + |b|];
    }
  }

  // A run of ordinary characters is collected as it stands.
  lemma {:induction false} ReadPlain(s: string, i: nat, p: string)
    requires HoldsAt(s, i, p)
    requires forall k :: 0 <= k < |p| ==> p[k] != '"' && p[k] != '\\'
    ensures ReadChars(s, i) == Prefixed(p, ReadChars(s, i + |p|))
    decreases |p|, 1
  {
    if p == "" {
      assert p + ReadChars(s, i).text == ReadChars(s, i).text;
    } else {
      assert p == p[..1] + p[1..];
      HoldsSplit(s, i, p[..1], p[1..]);
      HeldChars(s, i, p[..1]);
      assert s[i] == p[..1][0] == p[0];
      var r := ReadChars(s, i + |p|);
      PlainTail(s, i, p);
      assert [p[0]] + (p[1..] + r.text) == p + r.text;
    }
  }

  lemma PlainTail(s: string, i: nat, p: string)
    requires p != "" && HoldsAt(s, i + 1, p[1..])
    requires forall k :: 0 <= k < |p| ==> p[k] != '"' && p[k] != '\\'
    ensures ReadChars(s, i + 1) == Prefixed(p[1..], ReadChars(s, i + |p|))
    decreases |p|, 0
  {
    ReadPlain(s, i + 1, p[1..]);
  }

  lemma ReadOneEscape(s: string, i: nat, c: char)
    requires HoldsAt(s, i, EscapeByte(c))
    ensures ReadChars(s, i) == Prefixed(GarbledByte(c), ReadChars(s, i + |EscapeByte(c)|))
  {
    if IsControl(c) {
      ReadControl(s, i, c);
    } else {
      var e := EscapeByte(c);
      HeldChars(s, i, e);
      assert s[i] == e[0] && (|e| == 2 ==> s[i + 1] == e[1]);
    }
  }

  lemma ReadControl(s: string, i: nat, c: char)
    requires IsControl(c) && HoldsAt(s, i, EscapeByte(c))
    ensures ReadChars(s, i) == Prefixed(EscapeByte(c)[1..], ReadChars(s, i + 6))
  {
    var e := EscapeByte(c);
    assert e == e[..2] + e[2..];
    HoldsSplit(s, i, e[..2], e[2..]);
    HeldChars(s, i, e[..2]);
    assert s[i] == e[..2][0] && s[i + 1] == e[..2][1];
    ReadPlain(s, i + 2, e[2..]);
    assert ['u'] + (e[2..] + ReadChars(s, i + 6).text) == e[1..] + ReadChars(s, i + 6).text;
  }

  lemma {:induction false} ReadEscaped(s: string, i: nat, t: string)
    requires HoldsAt(s, i, Escaped(t) + "\"")
    ensures ReadChars(s, i) == Read(true, i + |Escaped(t)| + 1, Garbled(t))
    decreases |t|
  {
    hide EscapeByte, GarbledByte, HoldsAt;
    HoldsSplit(s, i, Escaped(t), "\"");
    if t == "" {
      QuoteAt(s, i);
    } else {
      var e := EscapeByte(t[0]);
      assert Escaped(t) + "\"" == e + (Escaped(t[1..]) + "\"");
      HoldsSplit(s, i, e, Escaped(t[1..]) + "\"");
      ReadOneEscape(s, i, t[0]);
      ReadEscaped(s, i + |e|, t[1..]);
    }
  }

  lemma QuoteAt(s: string, i: nat)
    requires HoldsAt(s, i, "\"")
    ensures i < |s| && s[i] == '"'
  {
    assert s[i] == s[i..i + 1][0];
  }

  // Escape, then read, whatever follows: the text comes back exactly when it is clean, and reading
  // stops just past the closing quote either way.
  lemma EscapeReadBack(before: string, t: string, after: string)
    ensures var s := before + "\"" + Escaped(t) + "\"" + after;
            var r := ReadString(s, |before|);
            && r.closed && r.next == |before| + |Escaped(t)| + 2
            && r.text == Garbled(t)
            && (r.text == t <==> Clean(t))
  {
    var s := before + "\"" + Escaped(t) + "\"" + after;
    assert s[|before| + 1..|before| + 1 + |Escaped(t) + "\""|] == Escaped(t) + "\"";
    ReadEscaped(s, |before| + 1, t);
    GarbledExact(t);
  }

  // ---- Section 7 of RFC 8259 ----

  predicate IsHex(c: char) { '0' <= c <= '9' || 'a' <= c <= 'f' || 'A' <= c <= 'F' }

  function HexValue(c: char): nat
    requires IsHex(c)
  {
    if c <= '9' then c as int - '0' as int else if c >= 'a' then c as int - 'a' as int + 10
    else c as int - 'A' as int + 10
  }

  function RfcEscape(e: char): Option<char>
  {
    if e == '"' || e == '\\' || e == '/' then Some(e)
    else if e == 'b' then Some(8 as char) else if e == 'f' then Some(12 as char)
    else if e == 'n' then Some('\n') else if e == 'r' then Some('\r') else if e == 't' then Some('\t')
    else None
  }

  // A conforming reader: from inside a literal at i, the decoded text and the position past the
  // closing quote, or None where the RFC allows no string. \u escapes are decoded below U+0100,
  // the only ones a byte-level text needs.
  function RfcRead(s: string, i: nat): (r: Option<(string, nat)>)
    requires i <= |s|
    ensures r.Some? ==> i < r.value.1 <= |s|
    decreases |s| - i
  {
    if i == |s| || s[i] as int < 0x20 then None
    else if s[i] == '"' then Some(("", i + 1))
    else if s[i] != '\\' then Prepend(s[i], RfcRead(s, i + 1))
    else if i + 1 == |s| then None
    else if s[i + 1] == 'u' then
      if i + 5 < |s| && s[i + 2] == '0' && s[i + 3] == '0' && IsHex(s[i + 4]) && IsHex(s[i + 5]) then
        Prepend((16 * HexValue(s[i + 4]) + HexValue(s[i + 5])) as char, RfcRead(s, i + 6))
      else None
    else if RfcEscape(s[i + 1]).Some? then Prepend(RfcEscape(s[i + 1]).value, RfcRead(s, i + 2))
    else None
  }

  function Prepend(c: char, r: Option<(string, nat)>): Option<(string, nat)>
  {
    if r.Some? then Some(([c] + r.value.0, r.value.1)) else None
  }

  // For every text the escaped form is valid string content, and a conforming reader gets the text
  // back in full, control bytes included.
  lemma {:induction false} EscapedIsRfc(s: string, i: nat, t: string)
    requires HoldsAt(s, i, Escaped(t) + "\"")
    ensures RfcRead(s, i) == Some((t, i + |Escaped(t)| + 1))
    decreases |t|
  {
    hide EscapeByte, HoldsAt, RfcEscape, HexValue, IsHex;
    HoldsSplit(s, i, Escaped(t), "\"");
    if t == "" {
      QuoteAt(s, i);
    } else {
      var e := EscapeByte(t[0]);
      assert Escaped(t) + "\"" == e + (Escaped(t[1..]) + "\"");
      HoldsSplit(s, i, e, Escaped(t[1..]) + "\"");
      EscapedIsRfc(s, i + |e|, t[1..]);
      RfcReadOne(s, i, t[0]);
      assert t == [t[0]] + t[1..];
    }
  }

  lemma RfcReadOne(s: string, i: nat, c: char)
    requires HoldsAt(s, i, EscapeByte(c)) && i + |EscapeByte(c)| < |s|
    ensures RfcRead(s, i) == Prepend(c, RfcRead(s, i + |EscapeByte(c)|))
  {
    var e := EscapeByte(c);
    assert forall k :: 0 <= k < |e| ==> s[i + k] == s[i..i + |e|][k] == e[k];
    if IsControl(c) {
      HexBack(c);
    }
  }

  lemma HexBack(c: char)
    requires c as int < 0x20
    ensures var (h, l) := (HexDigit(c as int / 16), HexDigit(c as int % 16));
            IsHex(h) && IsHex(l) && 16 * HexValue(h) + HexValue(l) == c as int
  {
  }

  // ---- Key search ----

  // std::string::find
  function Find(s: string, needle: string, from: nat): (r: Option<nat>)
    ensures r.Some? ==> from <= r.value && HoldsAt(s, r.value, needle)
    ensures forall k {:trigger HoldsAt(s, k, needle)} ::
              from <= k && (r.Some? ==> k < r.value) ==> !HoldsAt(s, k, needle)
    decreases |s| - from
  {
    if from + |needle| > |s| then None
    else if HoldsAt(s, from, needle) then Some(from)
    else Find(s, needle, from + 1)
  }

  // Position of the value of the first "key", when a colon follows it.
  function ValueAt(s: string, key: string, from: nat): (r: Option<nat>)
    ensures r.Some? ==> from < r.value <= |s|
  {
    var at := Find(s, "\"" + key + "\"", from);
    if at.None? then None
    else
      var colon := RunEnd(s, at.value + |key| + 2, Blank);
      if colon == |s| || s[colon] != ':' then None else Some(RunEnd(s, colon + 1, Blank))
  }

  method SkipWs(s: string, start: nat) returns (i: nat)
    requires start <= |s|
    ensures i == RunEnd(s, start, Blank)
  {
    i := start;
    while i < |s| && IsWs(s[i])
      invariant i <= |s| && RunEnd(s, i, Blank) == RunEnd(s, start, Blank)
    {
      i := i + 1;
    }
  }

  // Where the caller's position is left after a miss: where it was without the needle, else where the colon is not.
  function MissAt(s: string, key: string, from: nat): nat
  {
    var at := Find(s, "\"" + key + "\"", from);
    if at.None? then from else RunEnd(s, at.value + |key| + 2, Blank)
  }

  method FindKey(s: string, key: string, start: nat) returns (ok: bool, pos: nat)
    ensures ValueAt(s, key, start) == if ok then Some(pos) else None
    ensures !ok ==> pos == MissAt(s, key, start)
  {
    var needle := "\"" + key + "\"";
    var at := start;
    while at + |needle| <= |s| && s[at..at + |needle|] != needle
      invariant start <= at
      invariant Find(s, needle, at) == Find(s, needle, start)
      decreases |s| - at
    {
      at := at + 1;
    }
    if at + |needle| > |s| {
      return false, start;
    }
    pos := SkipWs(s, at + |needle|);
    if pos >= |s| || s[pos] != ':' {
      return false, pos;
    }
    pos := SkipWs(s, pos + 1);
    ok := true;
  }
}
