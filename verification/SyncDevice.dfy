// The sync client as it runs on the device.
module SyncDevice {
  import opened Prelude
  import opened SyncCursor
  import opened MemoryRecord
  import opened AddPayload
  import opened SyncSpec

  class Device {
    const cfg: Config
    var file: string
    var cursor: Option<string>
    var log: seq<Batch>

    constructor (cfg: Config, file: string, cursor: Option<string>)
      ensures this.cfg == cfg && State() == Store(file, cursor, [])
    {
      this.cfg, this.file, this.cursor, this.log := cfg, file, cursor, [];
    }

    function State(): Store
      reads this
    {
      Store(file, cursor, log)
    }

    method LoadCursor(readable: bool) returns (offset: nat)
      ensures offset == Load(State(), readable)
    {
      if !readable || cursor.None? {
        return 0;
      }
      var ok, parsed := ParseCursor(CStr(cursor.value));
      offset := if ok then parsed else 0;
    }

    method SaveCursor(offset: nat, w: Write) returns (ok: bool)
      modifies this`cursor
      ensures (State(), ok) == Saved(old(State()), offset, w)
    {
      if w.NotOpened? {
        return false;
      }
      var text := FormatCursor(offset);
      var n := if w.Stopped? && w.written < |text| then w.written else |text|;
      cursor := Some(text[..n]);
      assert text[..|text|] == text;
      ok := n == |text|;
    }

    // Nothing is read at the end of the file or past it.
    method ReadLineAt(off: nat) returns (ok: bool, next: nat, line: string)
      ensures ok <==> off < |file|
      ensures if ok then next == NextLine(file, off) && line == LineText(file, off) else next == off && line == ""
    {
      line, next := "", off;
      ok := off < |file|;
      if !ok {
        return;
      }
      ghost var stop := NextLine(file, off);
      while next < |file|
        invariant off <= next <= stop
        invariant next < stop ==> NextLine(file, next) == stop
        invariant next == stop ==> next == |file| && next > off && file[next - 1] != '\n'
        invariant line == DropCr(file[off..next])
        decreases stop - next
      {
        var c := file[next];
        assert file[off..next + 1] == file[off..next] + [c];
        DropCrSnoc(file[off..next], c);
        next := next + 1;
        if c == '\n' {
          break;
        }
        if c != '\r' {
          line := line + [c];
        }
      }
    }

    method SyncNow(env: Env) returns (ok: bool)
      modifies this`cursor, this`log
      ensures (State(), ok) == SyncSpec.SyncNow(cfg, old(State()), env)
    {
      if !IsConfigured(cfg) || !env.mounted {
        return false;
      }
      var offset := LoadCursor(env.cursorReadable);
      var fileBytes := if env.sizeKnown then |file| else 0;
      if offset > fileBytes {
        offset := fileBytes;
        var _ := SaveCursor(offset, env.clamp);
      }
      if offset >= fileBytes {
        return true;
      }
      var messages, consumed := CollectBatch(offset, env.lineReads);
      if messages == [] {
        if consumed > offset {
          var _ := SaveCursor(consumed, env.save);
        }
        return true;
      }
      if !env.post.sent {
        return false;
      }
      if env.post.stored {
        log := log + [Batch(SessionOf(cfg, env.clock, messages), messages)];
      }
      if !Is2xx(env.post.code) {
        return false;
      }
      ok := SaveCursor(consumed, env.save);
    }

    method CollectBatch(start: nat, lineReads: nat) returns (messages: seq<SyncMessage>, consumed: nat)
      requires start <= |file|
      ensures (messages, consumed) == Collect(file, cfg.deviceId, start, MAX_BATCH, lineReads)
    {
      hide Collect, Resumed, NextLine, LineText, MemoryLineOf, ToSyncMessage;
      messages, consumed := [], start;
      ResumedEnds([], file, cfg.deviceId, start, lineReads);
      var left := lineReads;
      ghost var whole := Collect(file, cfg.deviceId, start, MAX_BATCH, lineReads);
      while |messages| < MAX_BATCH && left > 0
        invariant start <= consumed <= |file| && |messages| <= MAX_BATCH
        invariant whole == Resumed(messages, file, cfg.deviceId, consumed, left)
        decreases left
      {
        var ok, next, line := ReadLineAt(consumed);
        if !ok {
          break;
        }
        var parsed := ParseMemoryLine(CStr(line));
        CollectStep(messages, file, cfg.deviceId, consumed, left);
        consumed, left := next, left - 1;
        if ShouldIncludeInBatch(parsed) {
          messages := messages + [ToSyncMessage(parsed, cfg.deviceId)];
        }
      }
      ResumedEnds(messages, file, cfg.deviceId, consumed, left);
    }

    // One environment per permitted batch.
    method SyncAll(envs: seq<Env>) returns (ok: bool)
      modifies this`cursor, this`log
      ensures (State(), ok) == SyncSpec.SyncAll(cfg, old(State()), envs)
    {
      hide SyncSpec.SyncNow, CursorValue;
      ghost var goal := SyncSpec.SyncAll(cfg, State(), envs);
      var i := 0;
      while i < |envs|
        invariant i <= |envs|
        invariant goal == SyncSpec.SyncAll(cfg, State(), envs[i..])
      {
        var env := envs[i];
        var before := LoadCursor(env.looks.before);
        if before >= (if env.looks.size then |file| else 0) {
          return true;
        }
        ok := SyncNow(env);
        if !ok {
          return false;
        }
        var after := LoadCursor(env.looks.after);
        if after <= before {
          break;
        }
        assert envs[i..][1..] == envs[i + 1..];
        i := i + 1;
      }
      ok := true;
    }
  }

  // A batch so far, completed by collecting from off.
  ghost function Resumed(messages: seq<SyncMessage>, file: string, deviceId: string, off: nat,
                         lineReads: nat): (seq<SyncMessage>, nat)
    requires |messages| <= MAX_BATCH && off <= |file|
  {
    var rest := Collect(file, deviceId, off, MAX_BATCH - |messages|, lineReads);
    (messages + rest.0, rest.1)
  }

  lemma ResumedEnds(messages: seq<SyncMessage>, file: string, deviceId: string, off: nat, lineReads: nat)
    requires |messages| <= MAX_BATCH && off <= |file|
    ensures messages == [] ==>
              Resumed(messages, file, deviceId, off, lineReads) == Collect(file, deviceId, off, MAX_BATCH, lineReads)
    ensures |messages| == MAX_BATCH || lineReads == 0 || off == |file| ==>
              Resumed(messages, file, deviceId, off, lineReads) == (messages, off)
  {
    hide MessageOf, LineText, NextLine;
    var rest := Collect(file, deviceId, off, MAX_BATCH - |messages|, lineReads);
    assert [] + rest.0 == rest.0 && messages + [] == messages;
  }

  lemma CollectStep(messages: seq<SyncMessage>, file: string, deviceId: string, off: nat, lineReads: nat)
    requires |messages| < MAX_BATCH && off < |file| && lineReads > 0
    ensures Resumed(messages, file, deviceId, off, lineReads) ==
            var m := MessageOf(LineText(file, off), deviceId);
            Resumed(if m.None? then messages else messages + [m.value],
                    file, deviceId, NextLine(file, off), lineReads - 1)
  {
    hide NextLine, LineText, MessageOf;
    var m := MessageOf(LineText(file, off), deviceId);
    if m.Some? {
      var rest := Collect(file, deviceId, NextLine(file, off), MAX_BATCH - |messages| - 1, lineReads - 1);
      assert messages + ([m.value] + rest.0) == messages + [m.value] + rest.0;
    }
  }

  lemma {:induction false} DropCrSnoc(s: string, c: char)
    ensures DropCr(s + [c]) == DropCr(s) + (if c == '\r' then "" else [c])
  {
    if s == "" {
      assert s + [c] == [c];
    } else {
      assert (s + [c])[1..] == s[1..] + [c];
      DropCrSnoc(s[1..], c);
    }
  }
}
