// Decimal text and the cursor file: bridge/firmware/sync_protocol.h:38-73.
module Decimal {

  predicate IsDigit(c: char) { '0' <= c <= '9' }

  predicate AllDigits(s: string) { forall k :: 0 <= k < |s| ==> IsDigit(s[k]) }

  function DigitValue(c: char): nat
    requires IsDigit(c)
  {
    c as int - '0' as int
  }

  // std::to_string of an unsigned value: no sign, no leading zero.
  function ToString(n: nat): (s: string)
    ensures |s| > 0 && AllDigits(s)
  {
    var d := ('0' as int + n % 10) as char;
    if n < 10 then [d] else ToString(n / 10) + [d]
  }

  function Value(s: string): nat
    requires AllDigits(s)
  {
    if s == "" then 0 else 10 * Value(s[..|s| - 1]) + DigitValue(s[|s| - 1])
  }

  // n without its last k decimal digits.
  function DropDigits(n: nat, k: nat): (r: nat)
    ensures r <= n
    ensures k > 0 && n > 0 ==> r < n
  {
    if k == 0 then n else DropDigits(n / 10, k - 1)
  }

  lemma {:induction false} ValueOfPrefix(n: nat, j: nat)
    requires j <= |ToString(n)|
    ensures Value(ToString(n)[..j]) == DropDigits(n, |ToString(n)| - j)
  {
    var s := ToString(n);
    if j == |s| {
      assert s[..j] == s;
      if n >= 10 {
        ValueOfPrefix(n / 10, |s| - 1);
        assert s[..|s| - 1] == ToString(n / 10) == ToString(n / 10)[..|s| - 1];
      }
    } else if n >= 10 {
      ValueOfPrefix(n / 10, j);
      assert s[..j] == ToString(n / 10)[..j];
    } else {
      assert s[..j] == "";
    }
  }

  lemma ValueOfToString(n: nat)
    ensures Value(ToString(n)) == n
  {
    ValueOfPrefix(n, |ToString(n)|);
    assert ToString(n)[..|ToString(n)|] == ToString(n);
  }

  lemma ToStringInjective(m: nat, n: nat)
    ensures ToString(m) == ToString(n) ==> m == n
  {
    ValueOfToString(m);
    ValueOfToString(n);
  }
}

module SyncCursor {
  import opened Prelude
  import opened Decimal

  // Offsets are uint64_t: parsing accumulates modulo this.
  const U64: nat := 0x1_0000_0000_0000_0000

  predicate IsWs(c: char) { c == ' ' || c == '\t' || c == '\r' || c == '\n' }

  function FormatCursor(offset: nat): string { ToString(offset) + "\n" }

  datatype CharClass = Blank | Digit

  predicate Within(c: char, class_: CharClass)
  {
    if class_ == Blank then IsWs(c) else IsDigit(c)
  }

  // End of the run of characters of the class that starts at i.
  function RunEnd(s: string, i: nat, class_: CharClass): (j: nat)
    requires i <= |s|
    ensures i <= j <= |s|
    ensures forall k :: i <= k < j ==> Within(s[k], class_)
    ensures j < |s| ==> !Within(s[j], class_)
    decreases |s| - i
  {
    if i < |s| && Within(s[i], class_) then RunEnd(s, i + 1, class_) else i
  }

  lemma {:induction false} RunEndIs(s: string, i: nat, j: nat, class_: CharClass)
    requires i <= j <= |s|
    requires forall k :: i <= k < j ==> Within(s[k], class_)
    requires j < |s| ==> !Within(s[j], class_)
    ensures RunEnd(s, i, class_) == j
    decreases j - i
  {
    if i < j {
      RunEndIs(s, i + 1, j, class_);
    }
  }

  // The text a cursor file may hold: blank, or blanks, a digit run, and then
  // either the end or a blank followed by anything.
  function CursorOf(raw: string): Option<nat>
  {
    var i := RunEnd(raw, 0, Blank);
    var j := RunEnd(raw, i, Digit);
    if i == |raw| then Some(0)
    else if i < j && (j == |raw| || IsWs(raw[j])) then Some(Value(raw[i..j]) % U64)
    else None
  }

  // Accumulating modulo 2^64 gives the value modulo 2^64.
  lemma ValueStep(raw: string, start: nat, i: nat)
    requires start <= i < |raw| && AllDigits(raw[start..i]) && IsDigit(raw[i])
    ensures AllDigits(raw[start..i + 1])
    ensures (Value(raw[start..i]) % U64 * 10 + DigitValue(raw[i])) % U64 == Value(raw[start..i + 1]) % U64
  {
    assert raw[start..i + 1][..i - start] == raw[start..i];
    assert Value(raw[start..i + 1]) == 10 * Value(raw[start..i]) + DigitValue(raw[i]);
    hide Value, DigitValue, AllDigits;
    WrapStep(Value(raw[start..i]), DigitValue(raw[i]));
  }

  lemma WrapStep(v: nat, d: nat)
    ensures (v % U64 * 10 + d) % U64 == (10 * v + d) % U64
  {
    var x, k := v % U64 * 10 + d, 10 * (v / U64);
    assert 10 * v + d == x + U64 * k;
    assert x + U64 * k == U64 * (x / U64 + k) + x % U64;
  }

  method ParseCursor(raw: string) returns (ok: bool, offset: nat)
    ensures CursorOf(raw) == if ok then Some(offset) else None
    ensures !ok ==> offset == 0
  {
    offset := 0;
    var i := 0;
    while i < |raw| && IsWs(raw[i])
      invariant i <= |raw|
      invariant RunEnd(raw, 0, Blank) == RunEnd(raw, i, Blank)
    {
      i := i + 1;
    }
    if i >= |raw| {
      return true, 0;
    }
    ghost var start := i;
    ghost var stop := RunEnd(raw, start, Digit);
    var v, any := 0, false;
    while i < |raw|
      invariant start <= i <= stop
      invariant any <==> start < i
      invariant v == Value(raw[start..i]) % U64
      invariant RunEnd(raw, i, Digit) == stop
    {
      var c := raw[i];
      if IsDigit(c) {
        ValueStep(raw, start, i);
        any, v := true, (v * 10 + DigitValue(c)) % U64;
      } else if IsWs(c) {
        break;
      } else {
        return false, 0;
      }
      i := i + 1;
    }
    if !any {
      assert false;  // no text reaches this rejection: position `start` holds neither a blank nor a non-digit
    }
    return true, v;
  }

  // Everything a write of the cursor can leave behind, whole or torn, is read back as the
  // offset with as many trailing digits dropped as were lost.
  lemma TornCursorValue(n: nat, written: nat)
    requires n < U64 && written <= |FormatCursor(n)|
    ensures var lost := if written <= |ToString(n)| then |ToString(n)| - written else 0;
            CursorOf(FormatCursor(n)[..written]) == Some(if written == 0 then 0 else DropDigits(n, lost))
  {
    hide ToString, Value, DropDigits, RunEnd;
    var s := ToString(n);
    var raw := FormatCursor(n)[..written];
    if written == 0 {
      assert raw == "";
    } else {
      var j := if written <= |s| then written else |s|;
      assert forall k :: 0 <= k < j ==> raw[k] == s[k];
      RunEndIs(raw, 0, 0, Blank);
      RunEndIs(raw, 0, j, Digit);
      assert raw[0..j] == s[..j];
      ValueOfPrefix(n, j);
    }
  }

  // A torn write only ever moves the cursor back; the whole text gives the offset itself.
  lemma CursorRoundTrip(n: nat, written: nat)
    requires n < U64 && written <= |FormatCursor(n)|
    ensures CursorOf(FormatCursor(n)) == Some(n)
    ensures CursorOf(FormatCursor(n)[..written]).Some?
    ensures CursorOf(FormatCursor(n)[..written]).value <= n
    ensures CursorOf(FormatCursor(n)[..written]).value == n <==> (n == 0 || written >= |ToString(n)|)
  {
    hide CursorOf;
    TornCursorValue(n, written);
    TornCursorValue(n, |FormatCursor(n)|);
    assert FormatCursor(n)[..|FormatCursor(n)|] == FormatCursor(n);
  }

  // ---- Every text ----

  predicate AllBlank(s: string)
  {
    forall k :: 0 <= k < |s| ==> s[k] == ' ' || s[k] == '\t' || s[k] == '\r' || s[k] == '\n'
  }

  lemma RunsOf(before: string, digits: string, after: string, raw: string)
    requires raw == before + digits + after && AllBlank(before) && AllDigits(digits)
    requires digits != "" || after == "" || !AllBlank([after[0]])
    requires after == "" || !IsDigit(after[0])
    ensures RunEnd(raw, 0, Blank) == |before| && RunEnd(raw, |before|, Digit) == |before| + |digits|
    ensures raw[|before|..|before| + |digits|] == digits
  {
    ThreeParts(before, digits, after);
    EndsBlanks(digits, after);
    hide RunEnd, AllBlank, AllDigits, IsWs, IsDigit;
    BlanksUpTo(raw, |before|);
    DigitsUpTo(raw, |before|, |before| + |digits|);
  }

  lemma EndsBlanks(digits: string, after: string)
    requires AllDigits(digits)
    requires digits != "" || after == "" || !AllBlank([after[0]])
    ensures digits != "" ==> !IsWs(digits[0])
    ensures digits == "" && after != "" ==> !IsWs(after[0])
  {
  }

  lemma ThreeParts(a: string, b: string, c: string)
    ensures var s := a + b + c;
            && s[|a|..|a| + |b|] == b && s[..|a|] == a
            && (b != "" ==> s[|a|] == b[0]) && (c != "" ==> s[|a| + |b|] == c[0])
  {
  }

  lemma BlanksUpTo(raw: string, i: nat)
    requires i <= |raw| && AllBlank(raw[..i]) && (i < |raw| ==> !IsWs(raw[i]))
    ensures RunEnd(raw, 0, Blank) == i
  {
    assert forall k :: 0 <= k < i ==> raw[k] == raw[..i][k];
    RunEndIs(raw, 0, i, Blank);
  }

  lemma DigitsUpTo(raw: string, i: nat, j: nat)
    requires i <= j <= |raw| && AllDigits(raw[i..j]) && (j < |raw| ==> !IsDigit(raw[j]))
    ensures RunEnd(raw, i, Digit) == j
  {
    assert forall k :: i <= k < j ==> raw[k] == raw[i..j][k - i];
    RunEndIs(raw, i, j, Digit);
  }

  // Blanks, digits, and then the end or a blank followed by anything: the number modulo 2^64. Blanks alone: zero.
  lemma CursorReads(before: string, digits: string, after: string)
    requires AllBlank(before) && AllDigits(digits) && digits != "" && (after == "" || AllBlank(after[..1]))
    ensures CursorOf(before + digits + after) == Some(Value(digits) % 0x1_0000_0000_0000_0000)
    ensures CursorOf(before) == Some(0)
  {
    assert after != "" ==> after[..1][0] == after[0];
    RunsOf(before, digits, after, before + digits + after);
    RunsOf(before, "", "", before + "" + "");
    assert before + "" + "" == before;
    hide RunEnd, Value;
  }

  // Anything else is rejected: a character that is neither blank nor digit before a blank ends the number.
  lemma CursorRejects(before: string, digits: string, stray: char, after: string)
    requires AllBlank(before) && AllDigits(digits) && !AllBlank([stray]) && !IsDigit(stray)
    ensures CursorOf(before + digits + ([stray] + after)) == None
  {
    RunsOf(before, digits, [stray] + after, before + digits + ([stray] + after));
    var raw, at := before + digits + ([stray] + after), |before| + |digits|;
    assert raw[at] == stray;
    hide RunEnd, Value;
  }
}
