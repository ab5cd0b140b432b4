// UTF-8 as Python writes and strictly reads it (section 3 of RFC 3629).
module Utf8 {
  import opened Prelude

  type Byte = b: int | 0 <= b < 256

  predicate IsTrail(b: Byte) { 0x80 <= b < 0xC0 }

  function EncodeChar(c: char): (r: seq<Byte>)
    ensures |r| > 0
  {
    var v := c as int;
    if v < 0x80 then [v]
    else if v < 0x800 then [0xC0 + v / 64, 0x80 + v % 64]
    else if v < 0x1_0000 then [0xE0 + v / 4096, 0x80 + v / 64 % 64, 0x80 + v % 64]
    else [0xF0 + v / 262144, 0x80 + v / 4096 % 64, 0x80 + v / 64 % 64, 0x80 + v % 64]
  }

  function Encode(s: string): seq<Byte>
  {
    if s == "" then [] else EncodeChar(s[0]) + Encode(s[1..])
  }

  // How many bytes the character has that starts with this one, 0 where none does.
  function Width(lead: Byte): nat
  {
    if lead < 0x80 then 1
    else if 0xC2 <= lead < 0xE0 then 2
    else if 0xE0 <= lead < 0xF0 then 3
    else if 0xF0 <= lead < 0xF5 then 4
    else 0
  }

  // The number the bits of one character make.
  function Bits(b: seq<Byte>): int
    requires 1 <= |b| <= 4
  {
    var v := b[0] as int;
    if |b| == 1 then v
    else if |b| == 2 then (v - 0xC0) * 64 + Low(b[1])
    else if |b| == 3 then (v - 0xE0) * 4096 + Low(b[1]) * 64 + Low(b[2])
    else (v - 0xF0) * 262144 + Low(b[1]) * 4096 + Low(b[2]) * 64 + Low(b[3])
  }

  function Low(b: Byte): int { b as int - 0x80 }

  // Not overlong, not a surrogate, not past the last code point.
  predicate Allowed(v: int, width: nat)
  {
    && (width == 2 ==> v >= 0x80) && (width == 3 ==> v >= 0x800) && (width == 4 ==> v >= 0x1_0000)
    && (0 <= v < 0xD800 || 0xE000 <= v < 0x11_0000)
  }

  // The first character and its width.
  function DecodeChar(b: seq<Byte>): (r: Option<(char, nat)>)
    ensures r.Some? ==> 1 <= r.value.1 <= |b|
  {
    if b == [] then None
    else
      var w := Width(b[0]);
      if w == 0 || |b| < w || exists k :: 1 <= k < w && !IsTrail(b[k]) then None
      else
        var v := Bits(b[..w]);
        if Allowed(v, w) then Some((v as char, w)) else None
  }

  // None is the UnicodeDecodeError of a strict reader.
  function Decode(b: seq<Byte>): Option<string>
    decreases |b|
  {
    if b == [] then Some("")
    else
      var first :- DecodeChar(b);
      var rest :- Decode(b[first.1..]);
      Some([first.0] + rest)
  }

  lemma {:induction false} EncodeConcat(s: string, t: string)
    ensures Encode(s + t) == Encode(s) + Encode(t)
  {
    if s == "" {
      assert s + t == t;
    } else {
      assert (s + t)[1..] == s[1..] + t;
      EncodeConcat(s[1..], t);
    }
  }

  // The lead byte tells the width, and every other byte is a trail byte.
  lemma CharShape(c: char)
    ensures var e := EncodeChar(c);
            && Width(e[0]) == |e| <= 4 && (forall k :: 1 <= k < |e| ==> IsTrail(e[k]))
            && Allowed(c as int, |e|)
    ensures |EncodeChar(c)| == 1 <==> c as int < 0x80
  {
    SixBits(c as int);
  }

  lemma SixBits(v: nat)
    ensures v == v / 64 * 64 + v % 64 && 0 <= v % 64 < 64 && v / 4096 == v / 64 / 64 && v / 262144 == v / 4096 / 64
    ensures v == v / 4096 * 4096 + v / 64 % 64 * 64 + v % 64
    ensures v == v / 262144 * 262144 + v / 4096 % 64 * 4096 + v / 64 % 64 * 64 + v % 64
  {
  }

  lemma CharBits(c: char)
    ensures |EncodeChar(c)| <= 4 && Bits(EncodeChar(c)) == c as int
  {
    SixBits(c as int);
  }

  // A character is read back, whatever follows.
  lemma CharBack(c: char, rest: seq<Byte>)
    ensures DecodeChar(EncodeChar(c) + rest) == Some((c, |EncodeChar(c)|))
  {
    var e := EncodeChar(c);
    var b := e + rest;
    CharShape(c);
    CharBits(c);
    hide EncodeChar, Bits, Width, Allowed, IsTrail;
    assert b[0] == e[0] && b[..|e|] == e;
    assert forall k :: 1 <= k < |e| ==> b[k] == e[k];
  }

  // A character cut short is not, unless trail bytes follow.
  lemma CutChar(c: char, k: nat, rest: seq<Byte>)
    requires 0 < k < |EncodeChar(c)| && (rest == [] || !IsTrail(rest[0]))
    ensures DecodeChar(EncodeChar(c)[..k] + rest) == None
  {
    var e := EncodeChar(c);
    var b := e[..k] + rest;
    CharShape(c);
    hide EncodeChar, Bits, Width, Allowed, IsTrail;
    assert b[0] == e[0];
    if |b| >= |e| {
      assert b[k] == rest[0];
    }
  }

  // What decodes keeps its reading when more is appended.
  lemma {:induction false} DecodeAppend(b: seq<Byte>, more: seq<Byte>)
    requires Decode(b).Some?
    ensures Decode(b + more) == if Decode(more).None? then None else Some(Decode(b).value + Decode(more).value)
    decreases |b|
  {
    if b == [] {
      assert b + more == more;
      assert Decode(more).Some? ==> "" + Decode(more).value == Decode(more).value;
    } else {
      var (c, w) := DecodeChar(b).value;
      CharAppend(b, more);
      hide DecodeChar;
      assert (b + more)[w..] == b[w..] + more;
      DecodeAppend(b[w..], more);
      var tail := Decode(b[w..]).value;
      assert Decode(more).Some? ==> [c] + (tail + Decode(more).value) == [c] + tail + Decode(more).value;
    }
  }

  lemma CharAppend(b: seq<Byte>, more: seq<Byte>)
    requires DecodeChar(b).Some?
    ensures DecodeChar(b + more) == DecodeChar(b)
  {
    hide Bits, Width, Allowed, IsTrail;
    var w := Width(b[0]);
    assert (b + more)[..w] == b[..w];
    assert forall k :: 1 <= k < w ==> (b + more)[k] == b[k];
  }

  lemma DecodeFirst(c: char, rest: seq<Byte>)
    ensures Decode(EncodeChar(c) + rest) == if Decode(rest).None? then None else Some([c] + Decode(rest).value)
  {
    CharBack(c, rest);
    hide EncodeChar, DecodeChar;
    assert (EncodeChar(c) + rest)[|EncodeChar(c)|..] == rest;
  }

  lemma {:induction false} DecodeEncode(s: string)
    ensures Decode(Encode(s)) == Some(s)
  {
    if s != "" {
      DecodeFirst(s[0], Encode(s[1..]));
      DecodeEncode(s[1..]);
      assert s == [s[0]] + s[1..];
    }
  }

  // ---- Cuts ----

  function Upto<T>(s: seq<T>, n: nat): seq<T> { if n <= |s| then s[..n] else s }

  // How many whole characters w bytes of a text hold.
  function WholeChars(s: string, w: nat): (m: nat)
    ensures m <= |s|
  {
    if s == "" || w < |EncodeChar(s[0])| then 0 else 1 + WholeChars(s[1..], w - |EncodeChar(s[0])|)
  }

  // Writing stopped between two characters, or not at all.
  ghost predicate OnBoundary(s: string, w: nat)
  {
    w >= |Encode(s)| || exists m :: 0 <= m <= |s| && |Encode(s[..m])| == w
  }

  lemma WholeMore(s: string, w: nat)
    requires s != "" && w >= |EncodeChar(s[0])|
    ensures WholeChars(s, w) == 1 + WholeChars(s[1..], w - |EncodeChar(s[0])|)
    ensures s[..WholeChars(s, w)] == [s[0]] + s[1..][..WholeChars(s[1..], w - |EncodeChar(s[0])|)]
    ensures Upto(Encode(s), w) == EncodeChar(s[0]) + Upto(Encode(s[1..]), w - |EncodeChar(s[0])|)
    ensures OnBoundary(s, w) <==> OnBoundary(s[1..], w - |EncodeChar(s[0])|)
  {
    hide EncodeChar;
    var e, rest := EncodeChar(s[0]), s[1..];
    assert Encode(s) == e + Encode(rest);
    if m :| 0 <= m <= |s| && |Encode(s[..m])| == w {
      assert m > 0;
      assert s[..m][1..] == rest[..m - 1];
      assert |Encode(rest[..m - 1])| == w - |e|;
    }
    if m :| 0 <= m <= |rest| && |Encode(rest[..m])| == w - |e| {
      assert s[..m + 1][1..] == rest[..m];
      assert |Encode(s[..m + 1])| == w;
    }
  }

  lemma CutFirst(s: string, w: nat)
    requires s != "" && 0 < w < |EncodeChar(s[0])|
    ensures WholeChars(s, w) == 0 && !OnBoundary(s, w) && Upto(Encode(s), w) == EncodeChar(s[0])[..w]
  {
    hide EncodeChar;
    assert Encode(s) == EncodeChar(s[0]) + Encode(s[1..]);
    forall m | 0 <= m <= |s|
      ensures |Encode(s[..m])| != w
    {
      assert m > 0 ==> s[..m][0] == s[0];
    }
  }

  // The bytes of a text written up to w, followed by nothing or by a byte that begins a character: they are
  // read as the whole characters before the cut, exactly when the cut is on a boundary.
  lemma {:induction false} CutRead(s: string, w: nat, rest: seq<Byte>)
    requires rest == [] || !IsTrail(rest[0])
    ensures Decode(Upto(Encode(s), w) + rest) ==
            if !OnBoundary(s, w) || Decode(rest).None? then None
            else Some(s[..WholeChars(s, w)] + Decode(rest).value)
    decreases |s|
  {
    hide EncodeChar, DecodeChar, IsTrail, OnBoundary, WholeChars;
    if s == "" || w == 0 {
      NothingWritten(s, w);
      assert [] + rest == rest;
      assert Decode(rest).Some? ==> "" + Decode(rest).value == Decode(rest).value;
    } else if w < |EncodeChar(s[0])| {
      CutFirst(s, w);
      CutChar(s[0], w, rest);
    } else {
      var e := EncodeChar(s[0]);
      WholeMore(s, w);
      CutRead(s[1..], w - |e|, rest);
      var tail := Upto(Encode(s[1..]), w - |e|) + rest;
      assert Upto(Encode(s), w) + rest == e + tail;
      DecodeFirst(s[0], tail);
      if Decode(tail).Some? {
        var m := WholeChars(s[1..], w - |e|);
        assert [s[0]] + (s[1..][..m] + Decode(rest).value) == s[..WholeChars(s, w)] + Decode(rest).value;
      }
    }
  }

  lemma NothingWritten(s: string, w: nat)
    requires s == "" || w == 0
    ensures Upto(Encode(s), w) == [] && OnBoundary(s, w) && s[..WholeChars(s, w)] == ""
  {
    assert Encode(s[..0]) == [];
  }

  lemma {:induction false} WholeWritten(s: string, w: nat)
    requires w >= |Encode(s)|
    ensures WholeChars(s, w) == |s| && Upto(Encode(s), w) == Encode(s) && OnBoundary(s, w)
  {
    if s != "" {
      WholeWritten(s[1..], w - |EncodeChar(s[0])|);
    }
  }

  // A text can be cut inside a character exactly when it has one that is not ASCII.
  lemma {:induction false} CutsExact(s: string)
    ensures (exists w: nat :: !OnBoundary(s, w)) <==> (exists k :: 0 <= k < |s| && s[k] as int >= 0x80)
  {
    hide OnBoundary, EncodeChar;
    if k :| 0 <= k < |s| && s[k] as int >= 0x80 {
      var w := CutBeforeEnd(s, k);
    }
    if forall k :: 0 <= k < |s| ==> s[k] as int < 0x80 {
      forall w: nat
        ensures OnBoundary(s, w)
      {
        AsciiOnBoundary(s, w);
      }
    }
  }

  lemma {:induction false} CutBeforeEnd(s: string, k: nat) returns (w: nat)
    requires k < |s| && s[k] as int >= 0x80
    ensures !OnBoundary(s, w)
  {
    CharShape(s[0]);
    hide OnBoundary, EncodeChar;
    if k == 0 {
      w := 1;
      CutFirst(s, w);
    } else {
      var v := CutBeforeEnd(s[1..], k - 1);
      w := v + |EncodeChar(s[0])|;
      WholeMore(s, w);
    }
  }

  lemma {:induction false} AsciiOnBoundary(s: string, w: nat)
    requires forall k :: 0 <= k < |s| ==> s[k] as int < 0x80
    ensures OnBoundary(s, w)
    decreases |s|
  {
    hide OnBoundary, EncodeChar;
    if s == "" || w == 0 {
      NothingWritten(s, w);
    } else {
      CharShape(s[0]);
      AsciiOnBoundary(s[1..], w - 1);
      WholeMore(s, w);
    }
  }

  // The reader is strict: what it accepts is the encoding of what it reads, so no two files read alike.
  lemma {:induction false} DecodeStrict(b: seq<Byte>)
    requires Decode(b).Some?
    ensures Encode(Decode(b).value) == b
    decreases |b|
  {
    hide *;
    if b == [] {
      NothingDecoded();
    } else {
      FirstOf(b);
      var (c, w) := DecodeChar(b).value;
      CharStrict(b);
      DecodeStrict(b[w..]);
      EncodeFirst(c, Decode(b[w..]).value);
      assert b == b[..w] + b[w..];
    }
  }

  lemma NothingDecoded()
    ensures Decode([]) == Some("") && Encode("") == []
  {
  }

  lemma FirstOf(b: seq<Byte>)
    requires b != [] && Decode(b).Some?
    ensures DecodeChar(b).Some? && 1 <= DecodeChar(b).value.1 <= |b| && Decode(b[DecodeChar(b).value.1..]).Some?
    ensures Decode(b).value == [DecodeChar(b).value.0] + Decode(b[DecodeChar(b).value.1..]).value
  {
    hide DecodeChar;
  }

  lemma EncodeFirst(c: char, rest: string)
    ensures Encode([c] + rest) == EncodeChar(c) + Encode(rest)
  {
    assert ([c] + rest)[1..] == rest;
  }

  lemma CharStrict(b: seq<Byte>)
    requires DecodeChar(b).Some?
    ensures EncodeChar(DecodeChar(b).value.0) == b[..DecodeChar(b).value.1]
  {
    var w := Width(b[0]);
    assert forall k :: 1 <= k < w ==> IsTrail(b[k]);
    if w == 2 {
      assert IsTrail(b[1]);
      TwoBytes(b[..2]);
    } else if w == 3 {
      assert IsTrail(b[1]) && IsTrail(b[2]);
      ThreeBytes(b[..3]);
    } else if w == 4 {
      assert IsTrail(b[1]) && IsTrail(b[2]) && IsTrail(b[3]);
      FourBytes(b[..4]);
    }
  }

  lemma TwoBytes(b: seq<Byte>)
    requires |b| == 2 && Width(b[0]) == 2 && IsTrail(b[1]) && Allowed(Bits(b), 2)
    ensures EncodeChar(Bits(b) as char) == b
  {
    Shift(b[0] - 0xC0, Low(b[1]));
  }

  lemma ThreeBytes(b: seq<Byte>)
    requires |b| == 3 && Width(b[0]) == 3 && IsTrail(b[1]) && IsTrail(b[2]) && Allowed(Bits(b), 3)
    ensures EncodeChar(Bits(b) as char) == b
  {
    Shift(b[0] - 0xE0, Low(b[1]));
    Shift((b[0] - 0xE0) * 64 + Low(b[1]), Low(b[2]));
    assert Bits(b) / 4096 == Bits(b) / 64 / 64;
  }

  lemma FourBytes(b: seq<Byte>)
    requires |b| == 4 && Width(b[0]) == 4 && IsTrail(b[1]) && IsTrail(b[2]) && IsTrail(b[3]) && Allowed(Bits(b), 4)
    ensures EncodeChar(Bits(b) as char) == b
  {
    var x := (b[0] - 0xF0) * 64 + Low(b[1]);
    var y := x * 64 + Low(b[2]);
    Shift(b[0] - 0xF0, Low(b[1]));
    Shift(x, Low(b[2]));
    Shift(y, Low(b[3]));
    assert Bits(b) == y * 64 + Low(b[3]);
    assert Bits(b) / 4096 == Bits(b) / 64 / 64 && Bits(b) / 262144 == Bits(b) / 64 / 64 / 64;
  }

  lemma Shift(high: int, low: int)
    requires 0 <= low < 64
    ensures (high * 64 + low) / 64 == high && (high * 64 + low) % 64 == low
  {
  }
}
