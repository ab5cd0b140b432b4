// What holds over every run of appends, syncs, faults and cursor losses: bridge/firmware/sync_client.cpp:134-247.
module SyncRuns {
  import opened Prelude
  import opened Decimal
  import opened SyncCursor
  import opened AddPayload
  import opened SyncSpec

  // ---- The memory file as a list of lines ----

  predicate IsLine(l: string)
  {
    |l| > 0 && l[|l| - 1] == '\n' && forall k :: 0 <= k < |l| - 1 ==> l[k] != '\n'
  }

  predicate AllLines(lines: seq<string>) { forall i :: 0 <= i < |lines| ==> IsLine(lines[i]) }

  // Byte offset at which line i starts.
  function Start(lines: seq<string>, i: nat): nat
    requires i <= |lines|
  {
    |Flatten(lines[..i])|
  }

  // The message line l becomes, if it is sent at all.
  function LineMessage(l: string, deviceId: string): Option<SyncMessage>
    requires IsLine(l)
  {
    MessageOf(DropCr(l[..|l| - 1]), deviceId)
  }

  // The messages of the lines that are sent, in order.
  function Messages(lines: seq<string>, deviceId: string): seq<SyncMessage>
    requires AllLines(lines)
  {
    if lines == [] then []
    else
      var m := LineMessage(lines[0], deviceId);
      (if m.Some? then [m.value] else []) + Messages(lines[1..], deviceId)
  }

  // Everything the server holds, in the order it arrived.
  function Received(log: seq<Batch>): seq<SyncMessage>
  {
    if log == [] then [] else Received(log[..|log| - 1]) + log[|log| - 1].messages
  }

  lemma FlattenOne(l: string)
    ensures Flatten([l]) == l
  {
    assert Flatten([l]) == l + Flatten([]) == l;
  }

  lemma FileParts(lines: seq<string>, i: nat)
    requires i < |lines|
    ensures Flatten(lines) == Flatten(lines[..i]) + lines[i] + Flatten(lines[i + 1..])
    ensures Start(lines, i + 1) == Start(lines, i) + |lines[i]| <= |Flatten(lines)|
  {
    hide Flatten;
    FlattenOne(lines[i]);
    assert lines[..i + 1] == lines[..i] + [lines[i]];
    FlattenConcat(lines[..i], [lines[i]]);
    assert lines == lines[..i + 1] + lines[i + 1..];
    FlattenConcat(lines[..i + 1], lines[i + 1..]);
  }

  lemma StartEnd(lines: seq<string>)
    ensures Start(lines, 0) == 0 && Start(lines, |lines|) == |Flatten(lines)|
  {
    assert lines[..|lines|] == lines && lines[..0] == [];
  }

  lemma {:induction false} StartOrder(lines: seq<string>, i: nat, j: nat)
    requires AllLines(lines) && i <= j <= |lines|
    ensures Start(lines, i) + (j - i) <= Start(lines, j)
    decreases j - i
  {
    if i < j {
      StartOrder(lines, i, j - 1);
      FileParts(lines, j - 1);
    }
  }

  // The line that byte off belongs to.
  lemma {:induction false} Locate(lines: seq<string>, off: nat) returns (i: nat)
    requires off < |Flatten(lines)|
    ensures i < |lines| && Start(lines, i) <= off < Start(lines, i + 1)
  {
    StartEnd(lines);
    i := 0;
    while Start(lines, i + 1) <= off
      invariant i < |lines| && Start(lines, i) <= off
      decreases |lines| - i
    {
      i := i + 1;
    }
  }

  lemma {:induction false} NextLineIs(lines: seq<string>, i: nat, off: nat)
    requires AllLines(lines) && i < |lines| && Start(lines, i) <= off < Start(lines, i + 1)
    ensures off < |Flatten(lines)| && NextLine(Flatten(lines), off) == Start(lines, i + 1)
    decreases Start(lines, i + 1) - off
  {
    FileParts(lines, i);
    assert Flatten(lines)[off] == lines[i][off - Start(lines, i)];
    if off + 1 < Start(lines, i + 1) {
      NextLineIs(lines, i, off + 1);
    }
  }

  lemma LineTextIs(lines: seq<string>, i: nat)
    requires AllLines(lines) && i < |lines|
    ensures Start(lines, i) < |Flatten(lines)|
    ensures LineText(Flatten(lines), Start(lines, i)) == DropCr(lines[i][..|lines[i]| - 1])
  {
    var file, off, next := Flatten(lines), Start(lines, i), Start(lines, i + 1);
    FileParts(lines, i);
    NextLineIs(lines, i, off);
    hide AllLines, NextLine, DropCr, Flatten;
    var line := lines[i];
    assert file[off..next] == line;
    assert file[off..next - 1] == line[..|line| - 1];
  }

  // The same from a position inside line i, its newline included.
  lemma LineTailIs(lines: seq<string>, i: nat, p: nat)
    requires AllLines(lines) && i < |lines| && p < |lines[i]|
    ensures Start(lines, i) + p < |Flatten(lines)|
            && NextLine(Flatten(lines), Start(lines, i) + p) == Start(lines, i + 1)
    ensures LineText(Flatten(lines), Start(lines, i) + p) == DropCr(lines[i][p..|lines[i]| - 1])
  {
    var a, line, b := Flatten(lines[..i]), lines[i], Flatten(lines[i + 1..]);
    FileParts(lines, i);
    NextLineIs(lines, i, |a| + p);
    EndsLine(lines, i);
    hide *;
    TailText(a, line, b, p, Flatten(lines));
  }

  lemma EndsLine(lines: seq<string>, i: nat)
    requires AllLines(lines) && i < |lines|
    ensures lines[i] != "" && lines[i][|lines[i]| - 1] == '\n'
  {
  }

  lemma TailText(a: string, line: string, b: string, p: nat, file: string)
    requires p < |line| && line[|line| - 1] == '\n' && file == a + line + b && NextLine(file, |a| + p) == |a| + |line|
    ensures LineText(file, |a| + p) == DropCr(line[p..|line| - 1])
  {
    hide NextLine, DropCr;
    assert file[|a| + |line| - 1] == '\n';
    assert file[|a| + p..|a| + |line| - 1] == line[p..|line| - 1];
  }

  // Carriage returns are dropped and nothing else.
  lemma {:induction false} ReturnsDropped(s: string, t: string)
    ensures DropCr(s + t) == DropCr(s) + DropCr(t)
    ensures |s| == 1 ==> DropCr(s) == if s == "\r" then "" else s
  {
    if s == "" {
      assert s + t == t;
    } else {
      ReturnsDropped(s[1..], t);
      hide DropCr;
      var c, rest := s[0], s[1..];
      DropFirst(c, rest);
      DropFirst(c, rest + t);
      assert s == [c] + rest && s + t == [c] + (rest + t);
      var kept := if c == '\r' then "" else [c];
      ThreeTexts(kept, DropCr(rest), DropCr(t));
    }
  }

  lemma ThreeTexts(a: string, b: string, c: string)
    ensures (a + b) + c == a + (b + c)
  {
  }

  lemma DropFirst(c: char, rest: string)
    ensures DropCr([c] + rest) == (if c == '\r' then "" else [c]) + DropCr(rest)
    ensures rest == "" ==> DropCr(rest) == ""
  {
    assert ([c] + rest)[1..] == rest;
  }

  // What follows the first NUL is not seen.
  lemma {:induction false} CutAtNul(s: string, t: string)
    requires forall k :: 0 <= k < |s| ==> s[k] != 0 as char
    ensures CStr(s + ([0 as char] + t)) == CStr(s) == s
  {
    var all := s + ([0 as char] + t);
    if s == "" {
      assert all[0] == 0 as char;
    } else {
      CutAtNul(s[1..], t);
      assert all[1..] == s[1..] + ([0 as char] + t) && all[0] == s[0];
      assert s == [s[0]] + s[1..];
    }
  }

  // ---- Events ----

  datatype Event =
    | Append(line: string)
    | Sync(env: Env)
    | Drain(envs: seq<Env>)
    | Reset(raw: Option<string>)  // the cursor file is lost or damaged

  function Apply(cfg: Config, s: Store, e: Event): Store
  {
    match e
    case Append(line) => s.(file := s.file + line)
    case Sync(env) => SyncNow(cfg, s, env).0
    case Drain(envs) => SyncAll(cfg, s, envs).0
    case Reset(raw) => s.(cursor := raw)
  }

  function Run(cfg: Config, events: seq<Event>): Store
  {
    if events == [] then Store("", None, [])
    else Apply(cfg, Run(cfg, events[..|events| - 1]), events[|events| - 1])
  }

  function Appended(events: seq<Event>): seq<string>
  {
    if events == [] then []
    else Appended(events[..|events| - 1]) +
         match events[|events| - 1] { case Append(line) => [line] case _ => [] }
  }

  // ---- At least once ----

  // A 2xx is only seen for a request the server stored; anything else may happen.
  predicate Honest(env: Env) { env.post.sent && Is2xx(env.post.code) ==> env.post.stored }

  predicate Possible(e: Event)
  {
    match e
    case Append(line) => IsLine(line)
    case Sync(env) => Honest(env)
    case Drain(envs) => forall i :: 0 <= i < |envs| ==> Honest(envs[i])
    case Reset(raw) => CursorValue(raw) == 0
  }

  // How many lines start before byte off.
  function Begun(lines: seq<string>, off: nat): (k: nat)
    ensures k <= |lines|
  {
    if lines == [] then 0
    else if Start(lines, |lines| - 1) < off then |lines|
    else Begun(lines[..|lines| - 1], off)
  }

  lemma {:induction false} BegunBounds(lines: seq<string>, off: nat)
    ensures var k := Begun(lines, off);
            && (k > 0 ==> Start(lines, k - 1) < off)
            && (k < |lines| ==> off <= Start(lines, k))
  {
    hide Flatten;
    if lines != [] && Start(lines, |lines| - 1) >= off {
      var before := lines[..|lines| - 1];
      BegunBounds(before, off);
      assert forall i :: 0 <= i < |lines| ==> before[..i] == lines[..i];
    }
  }

  lemma BegunIs(lines: seq<string>, off: nat, k: nat)
    requires AllLines(lines) && k <= |lines| && (k > 0 ==> Start(lines, k - 1) < off)
             && (k < |lines| ==> off <= Start(lines, k))
    ensures Begun(lines, off) == k
  {
    hide Begun, Start;
    BegunBounds(lines, off);
    var b := Begun(lines, off);
    if b < k {
      StartOrder(lines, b, k - 1);
    } else if k < b {
      StartOrder(lines, k, b - 1);
    }
  }

  lemma BegunGrows(lines: seq<string>, a: nat, b: nat)
    requires AllLines(lines) && a <= b
    ensures Begun(lines, a) <= Begun(lines, b)
  {
    hide Begun, Start;
    BegunBounds(lines, a);
    BegunBounds(lines, b);
    if Begun(lines, b) < Begun(lines, a) {
      StartOrder(lines, Begun(lines, b), Begun(lines, a) - 1);
    }
  }

  // The server holds the message of each line before off, as often as there are such lines.
  ghost predicate Stored(lines: seq<string>, deviceId: string, off: nat, received: seq<SyncMessage>)
    requires AllLines(lines)
  {
    multiset(Messages(lines[..Begun(lines, off)], deviceId)) <= multiset(received)
  }

  ghost predicate Acked(s: Store, lines: seq<string>, deviceId: string)
  {
    && AllLines(lines) && s.file == Flatten(lines) && |s.file| < U64
    && CursorValue(s.cursor) <= |s.file|
    && Stored(lines, deviceId, CursorValue(s.cursor), Received(s.log))
  }

  lemma StoredLess(lines: seq<string>, deviceId: string, off: nat, less: nat, received: seq<SyncMessage>)
    requires AllLines(lines) && less <= off && Stored(lines, deviceId, off, received)
    ensures Stored(lines, deviceId, less, received)
  {
    hide Begun, Messages;
    BegunGrows(lines, less, off);
    MessagesSplit(lines, Begun(lines, less), Begun(lines, off), deviceId);
    var a := Messages(lines[..Begun(lines, less)], deviceId);
    var b := Messages(lines[Begun(lines, less)..Begun(lines, off)], deviceId);
    assert multiset(a + b) == multiset(a) + multiset(b);
  }

  // A line that starts before off has its message on the server.
  lemma StoredLine(lines: seq<string>, deviceId: string, off: nat, received: seq<SyncMessage>, i: nat)
    requires AllLines(lines) && Stored(lines, deviceId, off, received)
    requires i < |lines| && Start(lines, i) < off && LineMessage(lines[i], deviceId).Some?
    ensures LineMessage(lines[i], deviceId).value in received
  {
    hide Begun, Start, LineMessage, IsLine;
    BegunBounds(lines, off);
    var k := Begun(lines, off);
    if k <= i {
      StartOrder(lines, k, i);
    }
    MessageThere(lines[..k], deviceId, i);
    var m := LineMessage(lines[i], deviceId).value;
    assert m in multiset(Messages(lines[..k], deviceId));
    assert m in multiset(received);
  }

  lemma {:induction false} MessageThere(lines: seq<string>, deviceId: string, i: nat)
    requires AllLines(lines) && i < |lines| && LineMessage(lines[i], deviceId).Some?
    ensures LineMessage(lines[i], deviceId).value in Messages(lines, deviceId)
  {
    hide LineMessage, IsLine;
    if i > 0 {
      MessageThere(lines[1..], deviceId, i - 1);
    }
  }

  lemma {:induction false} CStrPlain(s: string)
    requires forall k :: 0 <= k < |s| ==> s[k] != 0 as char
    ensures CStr(s) == s
  {
    if s != "" {
      CStrPlain(s[1..]);
    }
  }

  // Whatever happens to the write, the stored offset is the old one or at most the new one.
  lemma SavedValue(s: Store, offset: nat, w: Write)
    requires offset < U64
    ensures var (after, ok) := Saved(s, offset, w);
            && after.file == s.file && after.log == s.log
            && (CursorValue(after.cursor) <= offset || after.cursor == s.cursor)
            && (ok ==> CursorValue(after.cursor) == offset)
  {
    var text := FormatCursor(offset);
    assert forall k :: 0 <= k < |text| ==> text[k] != 0 as char by { hide ToString; }
    hide FormatCursor, CursorOf;
    if w.Stopped? && w.written < |text| {
      CStrPlain(text[..w.written]);
      CursorRoundTrip(offset, w.written);
    }
    CStrPlain(text);
    CursorRoundTrip(offset, |text|);
  }

  // The messages of lines i to j are among these, as often as there are such lines.
  ghost predicate Covers(lines: seq<string>, deviceId: string, i: nat, j: nat, messages: seq<SyncMessage>)
    requires AllLines(lines)
  {
    i <= j <= |lines| && multiset(Messages(lines[i..j], deviceId)) <= multiset(messages)
  }

  // What a batch read from off covers: the message of every line that starts from off up to where reading
  // stopped, as often as there are such lines.
  lemma {:induction false} CollectCovers(lines: seq<string>, deviceId: string, off: nat, room: nat, lineReads: nat)
    requires AllLines(lines) && off <= |Flatten(lines)|
    ensures var (messages, consumed) := Collect(Flatten(lines), deviceId, off, room, lineReads);
            Covers(lines, deviceId, Begun(lines, off), Begun(lines, consumed), messages)
    decreases |Flatten(lines)| - off
  {
    hide LineText, MessageOf, NextLine, Start, Begun, Messages, Flatten;
    var file := Flatten(lines);
    if room > 0 && lineReads > 0 && off < |file| {
      var next, m := NextLine(file, off), MessageOf(LineText(file, off), deviceId);
      var left := if m.None? then room else room - 1;
      CollectCovers(lines, deviceId, next, left, lineReads - 1);
      var rest := Collect(file, deviceId, next, left, lineReads - 1);
      var j := LinesFrom(lines, off);
      var b := Begun(lines, rest.1);
      assert Collect(file, deviceId, off, room, lineReads) == (if m.None? then rest.0 else [m.value] + rest.0, rest.1);
      hide Collect;
      if off == Start(lines, j) {
        FirstMessage(lines, deviceId, j, b);
        SameMessage(lines, j, deviceId);
      }
      OneMore(m, rest.0);
    } else {
      NoneBetween(lines, deviceId, Begun(lines, off));
    }
  }

  lemma OneMore(m: Option<SyncMessage>, rest: seq<SyncMessage>)
    ensures m.Some? ==> multiset([m.value] + rest) == multiset{m.value} + multiset(rest)
  {
  }

  lemma NoneBetween(lines: seq<string>, deviceId: string, k: nat)
    requires AllLines(lines) && k <= |lines|
    ensures Messages(lines[k..k], deviceId) == []
  {
  }

  // The line off belongs to, and how many lines start before off and before the next line.
  lemma LinesFrom(lines: seq<string>, off: nat) returns (j: nat)
    requires AllLines(lines) && off < |Flatten(lines)|
    ensures j < |lines| && Begun(lines, NextLine(Flatten(lines), off)) == j + 1
    ensures Begun(lines, off) == if off == Start(lines, j) then j else j + 1
    ensures off != Start(lines, j) ==> Start(lines, j) < off
    ensures Start(lines, j) < |Flatten(lines)|
  {
    hide Begun, Start, NextLine;
    j := Locate(lines, off);
    NextLineIs(lines, j, off);
    BegunIs(lines, Start(lines, j + 1), j + 1);
    if j > 0 {
      StartOrder(lines, j - 1, j);
    }
    BegunIs(lines, off, if off == Start(lines, j) then j else j + 1);
  }

  lemma FirstMessage(lines: seq<string>, deviceId: string, j: nat, b: nat)
    requires AllLines(lines) && j < b <= |lines|
    ensures var m := LineMessage(lines[j], deviceId);
            multiset(Messages(lines[j..b], deviceId)) ==
            (if m.Some? then multiset{m.value} else multiset{}) + multiset(Messages(lines[j + 1..b], deviceId))
  {
    hide LineMessage, IsLine;
    assert lines[j..b][1..] == lines[j + 1..b] && lines[j..b][0] == lines[j];
  }

  // ---- One sync keeps the at-least-once invariant ----

  lemma ReceivedMore(log: seq<Batch>, b: Batch)
    ensures Received(log + [b]) == Received(log) + b.messages
  {
    assert (log + [b])[..|log|] == log;
  }

  lemma SyncKeepsAcked(cfg: Config, s: Store, env: Env, lines: seq<string>)
    requires Acked(s, lines, cfg.deviceId) && Honest(env)
    ensures Acked(SyncNow(cfg, s, env).0, lines, cfg.deviceId)
  {
    hide Start, LineMessage, CursorValue, Collect, Saved, IsConfigured, SessionOf, Begun, Messages, Stored, IsLine;
    hide Flatten, Received;
    var loaded := Load(s, env.cursorReadable);
    var size := if env.sizeKnown then |s.file| else 0;
    var cursor := if loaded > size then size else loaded;
    StoredUpto(lines, cfg.deviceId, CursorValue(s.cursor), Received(s.log));
    if cursor < size {
      var (messages, consumed) := Collect(s.file, cfg.deviceId, cursor, MAX_BATCH, env.lineReads);
      BatchStored(lines, cfg.deviceId, cursor, env.lineReads, Received(s.log));
      StoredUpto(lines, cfg.deviceId, consumed, Received(s.log) + messages);
      SavedValue(s, consumed, env.save);
      if messages != [] {
        var batch := Batch(SessionOf(cfg, env.clock, messages), messages);
        ReceivedMore(s.log, batch);
        SavedValue(s.(log := s.log + [batch]), consumed, env.save);
        StoredMore(lines, cfg.deviceId, CursorValue(s.cursor), Received(s.log), messages);
      } else {
        assert Received(s.log) + [] == Received(s.log);
      }
    } else if loaded > size {
      SavedValue(s, size, env.clamp);
    }
  }

  // What is stored before off, and the batch read from there, cover what starts before the batch's end.
  lemma BatchStored(lines: seq<string>, deviceId: string, off: nat, lineReads: nat, received: seq<SyncMessage>)
    requires AllLines(lines) && off <= |Flatten(lines)| && Stored(lines, deviceId, off, received)
    ensures var (messages, consumed) := Collect(Flatten(lines), deviceId, off, MAX_BATCH, lineReads);
            Stored(lines, deviceId, consumed, received + messages)
  {
    CollectCovers(lines, deviceId, off, MAX_BATCH, lineReads);
    hide Begun, Messages, Collect, IsLine, Flatten;
    var (messages, consumed) := Collect(Flatten(lines), deviceId, off, MAX_BATCH, lineReads);
    var i, j := Begun(lines, off), Begun(lines, consumed);
    MessagesSplit(lines, i, j, deviceId);
    Sums(Messages(lines[..i], deviceId), Messages(lines[i..j], deviceId), received, messages);
  }

  lemma Sums(a: seq<SyncMessage>, b: seq<SyncMessage>, c: seq<SyncMessage>, d: seq<SyncMessage>)
    requires multiset(a) <= multiset(c) && multiset(b) <= multiset(d)
    ensures multiset(a + b) <= multiset(c + d)
  {
    assert multiset(a + b) == multiset(a) + multiset(b) && multiset(c + d) == multiset(c) + multiset(d);
  }

  lemma StoredUpto(lines: seq<string>, deviceId: string, off: nat, received: seq<SyncMessage>)
    requires AllLines(lines) && Stored(lines, deviceId, off, received)
    ensures forall less: nat :: less <= off ==> Stored(lines, deviceId, less, received)
  {
    forall less: nat | less <= off
      ensures Stored(lines, deviceId, less, received)
    {
      StoredLess(lines, deviceId, off, less, received);
    }
  }

  lemma StoredMore(lines: seq<string>, deviceId: string, off: nat, received: seq<SyncMessage>, more: seq<SyncMessage>)
    requires AllLines(lines) && Stored(lines, deviceId, off, received)
    ensures Stored(lines, deviceId, off, received + more)
  {
    hide Begun, Messages;
    assert multiset(received + more) == multiset(received) + multiset(more);
  }

  lemma {:induction false} DrainKeepsAcked(cfg: Config, s: Store, envs: seq<Env>, lines: seq<string>)
    requires Acked(s, lines, cfg.deviceId) && forall i :: 0 <= i < |envs| ==> Honest(envs[i])
    ensures Acked(SyncAll(cfg, s, envs).0, lines, cfg.deviceId)
    decreases |envs|
  {
    hide Acked, SyncNow, Load, Honest;
    if envs != [] {
      SyncKeepsAcked(cfg, s, envs[0], lines);
      DrainKeepsAcked(cfg, SyncNow(cfg, s, envs[0]).0, envs[1..], lines);
    }
  }

  lemma AppendKeepsAcked(s: Store, lines: seq<string>, line: string, deviceId: string)
    requires Acked(s, lines, deviceId) && IsLine(line) && |s.file + line| < U64
    ensures Acked(s.(file := s.file + line), lines + [line], deviceId)
  {
    hide LineMessage, CursorValue, IsLine, Messages, Begun, Received;
    FlattenConcat(lines, [line]);
    FlattenOne(line);
    BegunLonger(lines, line, CursorValue(s.cursor));
    assert (lines + [line])[..Begun(lines, CursorValue(s.cursor))] == lines[..Begun(lines, CursorValue(s.cursor))];
  }

  // A line appended behind off changes nothing before off.
  lemma BegunLonger(lines: seq<string>, line: string, off: nat)
    requires off <= |Flatten(lines)|
    ensures Begun(lines + [line], off) == Begun(lines, off)
  {
    assert (lines + [line])[..|lines|] == lines;
  }

  lemma {:induction false} FileGrows(cfg: Config, events: seq<Event>)
    ensures Run(cfg, events).file == Flatten(Appended(events))
  {
    hide SyncNow;
    if events != [] {
      var before, e := events[..|events| - 1], events[|events| - 1];
      FileGrows(cfg, before);
      var s := Run(cfg, before);
      match e {
        case Append(line) =>
          FlattenConcat(Appended(before), [line]);
          FlattenOne(line);
        case Sync(env) => SyncKeepsFile(cfg, s, env);
        case Drain(envs) => DrainKeepsFile(cfg, s, envs);
        case Reset(_) =>
      }
      if !e.Append? {
        assert Appended(before) + [] == Appended(before);
      }
    }
  }

  lemma SyncKeepsFile(cfg: Config, s: Store, env: Env)
    ensures SyncNow(cfg, s, env).0.file == s.file
  {
    hide IsConfigured, SessionOf, CursorValue, Collect;
  }

  lemma {:induction false} DrainKeepsFile(cfg: Config, s: Store, envs: seq<Env>)
    ensures SyncAll(cfg, s, envs).0.file == s.file
    decreases |envs|
  {
    hide SyncNow, Load;
    if envs != [] {
      SyncKeepsFile(cfg, s, envs[0]);
      DrainKeepsFile(cfg, SyncNow(cfg, s, envs[0]).0, envs[1..]);
    }
  }

  // Over every run whose only assumptions are whole-line appends, a file shorter than 2^64 and a 2xx that
  // means the batch is stored: the sendable lines that start before the stored cursor are on the server, each as
  // often as it stands there.
  lemma {:induction false} AtLeastOnce(cfg: Config, events: seq<Event>)
    requires forall i :: 0 <= i < |events| ==> Possible(events[i])
    requires |Flatten(Appended(events))| < U64
    ensures Acked(Run(cfg, events), Appended(events), cfg.deviceId)
    decreases |events|
  {
    hide SyncNow, SyncAll;
    if events != [] {
      var before, e := events[..|events| - 1], events[|events| - 1];
      FileGrows(cfg, before);
      FileGrows(cfg, events);
      var s, lines := Run(cfg, before), Appended(before);
      FileNeverShrinks(cfg, s, e);
      AtLeastOnce(cfg, before);
      hide Acked, Flatten;
      assert !e.Append? ==> lines + [] == lines;
      match e {
        case Append(line) => AppendKeepsAcked(s, lines, line, cfg.deviceId);
        case Sync(env) => SyncKeepsAcked(cfg, s, env, lines);
        case Drain(envs) => DrainKeepsAcked(cfg, s, envs, lines);
        case Reset(raw) => ResetKeepsAcked(s, lines, raw, cfg.deviceId);
      }
    }
  }

  lemma ResetKeepsAcked(s: Store, lines: seq<string>, raw: Option<string>, deviceId: string)
    requires Acked(s, lines, deviceId) && CursorValue(raw) == 0
    ensures Acked(s.(cursor := raw), lines, deviceId)
  {
    StoredLess(lines, deviceId, CursorValue(s.cursor), 0, Received(s.log));
  }

  // ---- Exactly once, when acknowledgements are faithful and the card works ----

  predicate Faithful(env: Env)
  {
    && env.cursorReadable && env.sizeKnown && env.save == Complete
    && (env.post.sent ==> (env.post.stored <==> Is2xx(env.post.code)))
  }

  predicate Undisturbed(e: Event)
  {
    match e
    case Append(line) => IsLine(line)
    case Sync(env) => Faithful(env)
    case Drain(envs) => forall i :: 0 <= i < |envs| ==> Faithful(envs[i])
    case Reset(_) => false
  }

  // The cursor stands at the start of line i and the server holds the messages of the lines before it.
  ghost predicate Exact(s: Store, lines: seq<string>, i: nat, deviceId: string)
  {
    && AllLines(lines) && s.file == Flatten(lines) && |s.file| < U64
    && i <= |lines| && CursorValue(s.cursor) == Start(lines, i)
    && Received(s.log) == Messages(lines[..i], deviceId)
  }

  // How many of the lines a batch with this much room reads.
  function Taken(lines: seq<string>, deviceId: string, room: nat, lineReads: nat): (n: nat)
    requires AllLines(lines)
    ensures n <= |lines|
    ensures room > 0 && lineReads > 0 && lines != [] ==> n > 0
  {
    if room == 0 || lineReads == 0 || lines == [] then 0
    else
      var left := if LineMessage(lines[0], deviceId).None? then room else room - 1;
      1 + Taken(lines[1..], deviceId, left, lineReads - 1)
  }

  ghost predicate Collects(lines: seq<string>, deviceId: string, i: nat, j: nat, room: nat, lineReads: nat)
    requires AllLines(lines)
  {
    && i <= j <= |lines| && Start(lines, i) <= |Flatten(lines)|
    && Collect(Flatten(lines), deviceId, Start(lines, i), room, lineReads) ==
       (Messages(lines[i..j], deviceId), Start(lines, j))
  }

  // From a line start, a batch is the messages of the next lines and ends at a line start.
  lemma {:induction false} CollectExact(lines: seq<string>, i: nat, deviceId: string, room: nat, lineReads: nat)
    requires AllLines(lines) && i <= |lines|
    ensures Collects(lines, deviceId, i, i + Taken(lines[i..], deviceId, room, lineReads), room, lineReads)
    decreases |lines| - i
  {
    hide LineText, MessageOf, NextLine, LineMessage, Start;
    StartEnd(lines);
    StartOrder(lines, i, |lines|);
    assert lines[i..i] == [];
    if room > 0 && lineReads > 0 && i < |lines| {
      StartOrder(lines, i + 1, |lines|);
      FileParts(lines, i);
      NextLineIs(lines, i, Start(lines, i));
      LineTextIs(lines, i);
      var m := LineMessage(lines[i], deviceId);
      SameMessage(lines, i, deviceId);
      var left := if m.None? then room else room - 1;
      CollectExact(lines, i + 1, deviceId, left, lineReads - 1);
      assert lines[i..][1..] == lines[i + 1..];
      var j := i + 1 + Taken(lines[i + 1..], deviceId, left, lineReads - 1);
      assert j == i + Taken(lines[i..], deviceId, room, lineReads);
      assert lines[i..j][1..] == lines[i + 1..j] && lines[i..j][0] == lines[i];
      var rest := Collect(Flatten(lines), deviceId, Start(lines, i + 1), left, lineReads - 1);
      assert [] + rest.0 == rest.0;
    }
  }

  lemma SameMessage(lines: seq<string>, i: nat, deviceId: string)
    requires AllLines(lines) && i < |lines| && Start(lines, i) < |Flatten(lines)|
    ensures MessageOf(LineText(Flatten(lines), Start(lines, i)), deviceId) == LineMessage(lines[i], deviceId)
  {
    hide MessageOf, LineText, Start;
    LineTextIs(lines, i);
  }

  lemma {:induction false} MessagesConcat(a: seq<string>, b: seq<string>, deviceId: string)
    requires AllLines(a) && AllLines(b)
    ensures Messages(a + b, deviceId) == Messages(a, deviceId) + Messages(b, deviceId)
  {
    hide LineMessage, IsLine;
    if a == [] {
      assert a + b == b;
    } else {
      assert (a + b)[1..] == a[1..] + b && (a + b)[0] == a[0];
      MessagesConcat(a[1..], b, deviceId);
      var m := LineMessage(a[0], deviceId);
      var first, rest := if m.Some? then [m.value] else [], Messages(a[1..], deviceId);
      assert first + (rest + Messages(b, deviceId)) == first + rest + Messages(b, deviceId);
    }
  }

  lemma MessagesSplit(lines: seq<string>, i: nat, j: nat, deviceId: string)
    requires AllLines(lines) && i <= j <= |lines|
    ensures Messages(lines[..j], deviceId) == Messages(lines[..i], deviceId) + Messages(lines[i..j], deviceId)
  {
    assert lines[..j] == lines[..i] + lines[i..j];
    MessagesConcat(lines[..i], lines[i..j], deviceId);
  }

  // Where one sync with a working card leaves the cursor: past the lines it read when the batch was
  // accepted or empty, else where it was.
  lemma SyncExact(cfg: Config, s: Store, env: Env, lines: seq<string>, i: nat) returns (j: nat)
    requires Exact(s, lines, i, cfg.deviceId) && Faithful(env)
    ensures i <= j <= |lines| && Exact(SyncNow(cfg, s, env).0, lines, j, cfg.deviceId)
    ensures var taken := i + Taken(lines[i..], cfg.deviceId, MAX_BATCH, env.lineReads);
            && (j == i || j == taken)
            && (IsConfigured(cfg) && env.mounted && env.post.sent && Is2xx(env.post.code) ==>
                j == taken && SyncNow(cfg, s, env).1)
  {
    hide Start, LineMessage, CursorValue, Collect, Saved, IsConfigured, SessionOf, Is2xx, Taken, Delivered, Messages;
    j := i;
    StartEnd(lines);
    StartOrder(lines, i, |lines|);
    CollectExact(lines, i, cfg.deviceId, MAX_BATCH, env.lineReads);
    var taken := i + Taken(lines[i..], cfg.deviceId, MAX_BATCH, env.lineReads);
    if Start(lines, i) == |s.file| {
      AtEnd(lines, i, cfg.deviceId, env.lineReads);
    } else if IsConfigured(cfg) && env.mounted {
      var (messages, consumed) := Collect(s.file, cfg.deviceId, Start(lines, i), MAX_BATCH, env.lineReads);
      StartOrder(lines, i, taken);
      if messages == [] {
        j := taken;
        MessagesSplit(lines, i, taken, cfg.deviceId);
        SavedValue(s, consumed, env.save);
        CompleteSave(s, consumed);
      } else {
        j := DeliveredExact(cfg, s, env, lines, i, taken);
      }
    }
  }

  lemma DeliveredExact(cfg: Config, s: Store, env: Env, lines: seq<string>, i: nat, taken: nat) returns (j: nat)
    requires Exact(s, lines, i, cfg.deviceId) && Faithful(env) && i <= taken <= |lines|
    requires Messages(lines[i..taken], cfg.deviceId) != [] && Start(lines, taken) <= |s.file|
    ensures var (after, ok) := Delivered(cfg, s, env, Messages(lines[i..taken], cfg.deviceId), Start(lines, taken));
            && Exact(after, lines, j, cfg.deviceId)
            && (j == i || j == taken)
            && (env.post.sent && Is2xx(env.post.code) ==> j == taken && ok)
  {
    hide Start, LineMessage, CursorValue, Saved, SessionOf, Is2xx, Messages;
    var messages, consumed := Messages(lines[i..taken], cfg.deviceId), Start(lines, taken);
    j := i;
    if env.post.sent && Is2xx(env.post.code) {
      j := taken;
      var after := s.(log := s.log + [Batch(SessionOf(cfg, env.clock, messages), messages)]);
      MessagesSplit(lines, i, taken, cfg.deviceId);
      ReceivedMore(s.log, Batch(SessionOf(cfg, env.clock, messages), messages));
      SavedValue(after, consumed, env.save);
      CompleteSave(after, consumed);
    }
  }

  lemma CompleteSave(s: Store, offset: nat)
    ensures Saved(s, offset, Complete).1
  {
  }

  lemma AtEnd(lines: seq<string>, i: nat, deviceId: string, lineReads: nat)
    requires AllLines(lines) && i <= |lines| && Start(lines, i) == |Flatten(lines)|
    ensures i == |lines| && Taken(lines[i..], deviceId, MAX_BATCH, lineReads) == 0
  {
    StartEnd(lines);
    StartOrder(lines, i, |lines|);
  }

  lemma {:induction false} DrainExact(cfg: Config, s: Store, envs: seq<Env>, lines: seq<string>, i: nat)
    returns (j: nat)
    requires Exact(s, lines, i, cfg.deviceId) && forall k :: 0 <= k < |envs| ==> Faithful(envs[k])
    ensures i <= j <= |lines| && Exact(SyncAll(cfg, s, envs).0, lines, j, cfg.deviceId)
    decreases |envs|
  {
    hide Exact, SyncNow, Load, Faithful;
    j := i;
    ExactBound(s, lines, i, cfg.deviceId);
    if envs != [] {
      var env := envs[0];
      var before := Load(s, env.looks.before);
      if before < (if env.looks.size then |s.file| else 0) {
        j := SyncExact(cfg, s, env, lines, i);
        var (next, ok) := SyncNow(cfg, s, env);
        if ok && Load(next, env.looks.after) > before {
          j := DrainExact(cfg, next, envs[1..], lines, j);
        }
      }
    }
  }

  lemma ExactBound(s: Store, lines: seq<string>, i: nat, deviceId: string)
    requires Exact(s, lines, i, deviceId)
    ensures i <= |lines|
  {
  }

  lemma AppendExact(s: Store, lines: seq<string>, i: nat, line: string, deviceId: string)
    requires Exact(s, lines, i, deviceId) && IsLine(line) && |s.file + line| < U64
    ensures Exact(s.(file := s.file + line), lines + [line], i, deviceId)
  {
    hide LineMessage, CursorValue, IsLine;
    FlattenConcat(lines, [line]);
    FlattenOne(line);
    assert (lines + [line])[..i] == lines[..i];
  }

  lemma FileNeverShrinks(cfg: Config, s: Store, e: Event)
    ensures |s.file| <= |Apply(cfg, s, e).file|
  {
    hide SyncNow, SyncAll;
    match e {
      case Sync(env) => SyncKeepsFile(cfg, s, env);
      case Drain(envs) => DrainKeepsFile(cfg, s, envs);
      case _ =>
    }
  }

  // With faithful acknowledgements and a working card, after every run the cursor is at a line start
  // and the server holds exactly the messages of the lines before it: in order, none twice, none missing.
  lemma {:induction false} ExactlyOnce(cfg: Config, events: seq<Event>) returns (i: nat)
    requires forall k :: 0 <= k < |events| ==> Undisturbed(events[k])
    requires |Flatten(Appended(events))| < U64
    ensures Exact(Run(cfg, events), Appended(events), i, cfg.deviceId)
    decreases |events|
  {
    hide SyncNow, SyncAll;
    if events == [] {
      i := 0;
    } else {
      var before, e := events[..|events| - 1], events[|events| - 1];
      FileGrows(cfg, before);
      FileGrows(cfg, events);
      var s, lines := Run(cfg, before), Appended(before);
      FileNeverShrinks(cfg, s, e);
      i := ExactlyOnce(cfg, before);
      hide Exact, Flatten;
      assert !e.Append? ==> lines + [] == lines;
      match e {
        case Append(line) => AppendExact(s, lines, i, line, cfg.deviceId);
        case Sync(env) => i := SyncExact(cfg, s, env, lines, i);
        case Drain(envs) => i := DrainExact(cfg, s, envs, lines, i);
        case Reset(_) => assert false;
      }
    }
  }
}
