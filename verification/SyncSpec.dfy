// One sync of the device with the memory server, as a function of what the card, the clock and the
// network do: bridge/firmware/sync_client.cpp:46-62, 104-247 and firmware/genesis-mini/src/sd_store.cpp:87-172.
module SyncSpec {
  import opened Prelude
  import opened SyncCursor
  import opened CivilDate
  import opened MemoryRecord
  import opened AddPayload

  const MAX_BATCH: nat := 200
  const TIME_VALID: int := 1700000000

  datatype Config = Config(enabled: bool, baseUrl: string, deviceId: string)

  predicate IsIdChar(c: char)
  {
    'a' <= c <= 'z' || 'A' <= c <= 'Z' || '0' <= c <= '9' || c == '_' || c == '.' || c == '@' || c == '+' || c == '-'
  }

  predicate IsValidDeviceId(id: string)
  {
    0 < |id| <= 128 && id != "." && id != ".." && forall k :: 0 <= k < |id| ==> IsIdChar(id[k])
  }

  predicate IsConfigured(cfg: Config)
  {
    cfg.enabled && cfg.baseUrl != "" && cfg.deviceId != "" && IsValidDeviceId(cfg.deviceId)
  }

  // What the server has stored, one entry per accepted request.
  datatype Batch = Batch(sessionId: string, messages: seq<SyncMessage>)

  // The memory file, the cursor file (if there is one) and the server's log.
  datatype Store = Store(file: string, cursor: Option<string>, log: seq<Batch>)

  // A POST: whether a request went out, whether the server stored it, and the code the device saw.
  datatype Post = Post(sent: bool, stored: bool, code: int)

  // A rewrite of the cursor file: not opened, or truncated and then stopped after some bytes, or done.
  datatype Write = NotOpened | Stopped(written: nat) | Complete

  // Whether the three looks syncAll takes around a batch succeed: cursor, file size, and cursor again.
  datatype Looks = Looks(before: bool, size: bool, after: bool)

  // Everything one call of syncNow, and one turn of syncAll, learns from outside. `lineReads` bounds the lines the
  // card reads.
  datatype Env = Env(mounted: bool, cursorReadable: bool, sizeKnown: bool, lineReads: nat, clock: int,
                     post: Post, clamp: Write, save: Write, looks: Looks)

  predicate Is2xx(code: int) { 200 <= code < 300 }

  // c_str(): what follows a NUL is not seen.
  function CStr(s: string): (r: string)
    ensures r <= s
  {
    if s == "" || s[0] == 0 as char then "" else [s[0]] + CStr(s[1..])
  }

  function CursorValue(cursor: Option<string>): nat
  {
    if cursor.None? then 0
    else
      var parsed := CursorOf(CStr(cursor.value));
      if parsed.None? then 0 else parsed.value
  }

  function Load(s: Store, readable: bool): nat { if readable then CursorValue(s.cursor) else 0 }

  // What rewriting the cursor file leaves, and whether the device believes it.
  function Saved(s: Store, offset: nat, w: Write): (Store, bool)
  {
    var text := FormatCursor(offset);
    match w
    case NotOpened => (s, false)
    case Stopped(n) => if n < |text| then (s.(cursor := Some(text[..n])), false) else (s.(cursor := Some(text)), true)
    case Complete => (s.(cursor := Some(text)), true)
  }

  // Position after the newline that ends the line at off, or the end of the file.
  function NextLine(file: string, off: nat): (next: nat)
    requires off < |file|
    ensures off < next <= |file|
    decreases |file| - off
  {
    if file[off] == '\n' || off + 1 == |file| then off + 1 else NextLine(file, off + 1)
  }

  function DropCr(s: string): string
  {
    if s == "" then "" else (if s[0] == '\r' then "" else [s[0]]) + DropCr(s[1..])
  }

  // The line at off without its newline and without carriage returns.
  function LineText(file: string, off: nat): string
    requires off < |file|
  {
    var next := NextLine(file, off);
    DropCr(if file[next - 1] == '\n' then file[off..next - 1] else file[off..next])
  }

  // The message a line becomes, if it is sent at all.
  function MessageOf(text: string, deviceId: string): Option<SyncMessage>
  {
    var line := MemoryLineOf(CStr(text));
    if ShouldIncludeInBatch(line) then Some(ToSyncMessage(line, deviceId)) else None
  }

  // Read lines from off until `room` messages are found, the card stops yielding or the file ends.
  function Collect(file: string, deviceId: string, off: nat, room: nat, lineReads: nat): (r: (seq<SyncMessage>, nat))
    requires off <= |file|
    ensures off <= r.1 <= |file| && |r.0| <= room
    decreases |file| - off
  {
    if room == 0 || lineReads == 0 || off == |file| then ([], off)
    else
      var next, m := NextLine(file, off), MessageOf(LineText(file, off), deviceId);
      if m.None? then Collect(file, deviceId, next, room, lineReads - 1)
      else
        var rest := Collect(file, deviceId, next, room - 1, lineReads - 1);
        ([m.value] + rest.0, rest.1)
  }

  function SessionEpoch(clock: int, first: SyncMessage): (e: int)
    ensures e >= TIME_VALID
  {
    if clock > TIME_VALID then clock
    else
      var e := TruncDiv(first.timestampMs, 1000);
      if e < TIME_VALID then TIME_VALID else e
  }

  function SessionOf(cfg: Config, clock: int, messages: seq<SyncMessage>): string
    requires messages != []
  {
    DailySessionId(cfg.deviceId, SessionEpoch(clock, messages[0]))
  }

  // Post a batch and, on a 2xx, move the cursor past what was read.
  function Delivered(cfg: Config, s: Store, env: Env, messages: seq<SyncMessage>, consumed: nat): (Store, bool)
    requires messages != []
  {
    if !env.post.sent then (s, false)
    else
      var batch := Batch(SessionOf(cfg, env.clock, messages), messages);
      var after := if env.post.stored then s.(log := s.log + [batch]) else s;
      if Is2xx(env.post.code) then Saved(after, consumed, env.save) else (after, false)
  }

  // syncNow: the store it leaves and the value it returns.
  function SyncNow(cfg: Config, s: Store, env: Env): (Store, bool)
  {
    if !IsConfigured(cfg) || !env.mounted then (s, false)
    else
      var loaded := Load(s, env.cursorReadable);
      var size := if env.sizeKnown then |s.file| else 0;
      var clamped := if loaded > size then Saved(s, size, env.clamp).0 else s;
      var cursor := if loaded > size then size else loaded;
      if cursor >= size then (clamped, true)
      else
        var (messages, consumed) := Collect(s.file, cfg.deviceId, cursor, MAX_BATCH, env.lineReads);
        if messages != [] then Delivered(cfg, clamped, env, messages, consumed)
        else if consumed > cursor then (Saved(clamped, consumed, env.save).0, true)
        else (clamped, true)
  }

  // syncAll over at most |envs| batches.
  function SyncAll(cfg: Config, s: Store, envs: seq<Env>): (Store, bool)
    decreases |envs|
  {
    if envs == [] then (s, true)
    else
      var env := envs[0];
      var before := Load(s, env.looks.before);
      if before >= (if env.looks.size then |s.file| else 0) then (s, true)
      else
        var (next, ok) := SyncNow(cfg, s, env);
        if !ok then (next, false)
        else if Load(next, env.looks.after) <= before then (next, true)
        else SyncAll(cfg, next, envs[1..])
  }
}
