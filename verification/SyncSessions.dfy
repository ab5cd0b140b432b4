// What one sync posts, answers and leaves in the cursor file, and the sessions the batches go to:
// bridge/firmware/sync_client.cpp:104-229.
module SyncSessions {
  import opened SyncCursor
  import opened CivilDate
  import opened JsonText
  import opened AddPayload
  import opened SyncSpec
  import opened SyncRuns

  // ---- Who may sync ----

  predicate IsLetter(c: char) { 'a' <= c <= 'z' }

  // An accepted device id goes into the payload as it stands; of 1 to 128 letters all are accepted and no more.
  lemma ValidDeviceIds(id: string)
    ensures IsValidDeviceId(id) ==> Escaped(id) == id && CStr(id) == id && '/' !in id && id != "." && id != ".."
    ensures (forall k :: 0 <= k < |id| ==> IsLetter(id[k])) ==> (IsValidDeviceId(id) <==> 1 <= |id| <= 128)
  {
    if IsValidDeviceId(id) {
      AllIdChars(id);
    }
    if forall k :: 0 <= k < |id| ==> IsLetter(id[k]) {
      assert id == "." || id == ".." ==> !IsLetter(id[0]);
      assert forall k :: 0 <= k < |id| ==> IsLetter(id[k]) && IsIdChar(id[k]);
    }
  }

  lemma {:induction false} AllIdChars(id: string)
    requires forall k :: 0 <= k < |id| ==> IsIdChar(id[k])
    ensures Escaped(id) == id && CStr(id) == id && '/' !in id
  {
    if id != "" {
      AllIdChars(id[1..]);
      assert id == [id[0]] + id[1..];
    }
  }

  // ---- One sync ----

  // The device may sync, the card is there, and there is something behind the cursor.
  predicate HasWork(cfg: Config, s: Store, env: Env)
  {
    && IsConfigured(cfg) && env.mounted && env.sizeKnown
    && (if env.cursorReadable then CursorValue(s.cursor) else 0) < |s.file|
  }

  function Pending(cfg: Config, s: Store, env: Env): (seq<SyncMessage>, nat)
    requires HasWork(cfg, s, env)
  {
    Collect(s.file, cfg.deviceId, if env.cursorReadable then CursorValue(s.cursor) else 0, MAX_BATCH, env.lineReads)
  }

  // A batch stands in the session of the day of a set clock; otherwise in that of its first message, but never before
  // the time from which a clock counts as set.
  predicate FiledBy(cfg: Config, b: Batch, clock: int)
  {
    && b.messages != []
    && if clock > 1700000000 then b.sessionId == DailySessionId(cfg.deviceId, clock)
       else
         var first := TruncDiv(b.messages[0].timestampMs, 1000);
         b.sessionId == DailySessionId(cfg.deviceId, if first < 1700000000 then 1700000000 else first)
  }

  // The server gets a batch exactly when there are messages behind the cursor and a request with them is sent and
  // stored, and it is one batch with these messages, filed by the clock.
  lemma SyncPosts(cfg: Config, s: Store, env: Env)
    ensures var log := SyncNow(cfg, s, env).0.log;
            if HasWork(cfg, s, env) && Pending(cfg, s, env).0 != [] && env.post.sent && env.post.stored then
              && |log| == |s.log| + 1 && log[..|s.log|] == s.log
              && log[|s.log|].messages == Pending(cfg, s, env).0 && FiledBy(cfg, log[|s.log|], env.clock)
            else log == s.log
  {
    hide Collect, IsConfigured, CursorValue, DailySessionId;
  }

  // It answers true exactly when there was nothing to post or it was acknowledged and the cursor could be written.
  lemma SyncAnswers(cfg: Config, s: Store, env: Env)
    ensures SyncNow(cfg, s, env).1 <==>
            && IsConfigured(cfg) && env.mounted
            && (HasWork(cfg, s, env) && Pending(cfg, s, env).0 != [] ==>
                env.post.sent && 200 <= env.post.code < 300 && Believed(Pending(cfg, s, env).1, env.save))
  {
    hide Collect, IsConfigured, CursorValue, SessionOf;
  }

  // Whether a rewrite of the cursor file is reported as done.
  predicate Believed(offset: nat, w: Write)
  {
    w.Complete? || (w.Stopped? && w.written >= |FormatCursor(offset)|)
  }

  // With writes that complete: a cursor behind the end is set to the end, a cursor is moved behind what was read when
  // that was posted and acknowledged or held no message, and otherwise it stays.
  lemma SyncMoves(cfg: Config, s: Store, env: Env)
    requires |s.file| < 0x1_0000_0000_0000_0000 && env.save.Complete? && env.clamp.Complete?
    ensures var loaded := if env.cursorReadable then CursorValue(s.cursor) else 0;
            var size := if env.sizeKnown then |s.file| else 0;
            CursorValue(SyncNow(cfg, s, env).0.cursor) ==
            if !IsConfigured(cfg) || !env.mounted then CursorValue(s.cursor)
            else if loaded > size then size
            else if HasWork(cfg, s, env) && Moves(Pending(cfg, s, env), loaded, env.post) then Pending(cfg, s, env).1
            else CursorValue(s.cursor)
  {
    SavedAt(s, if env.sizeKnown then |s.file| else 0);
    if HasWork(cfg, s, env) {
      var (messages, consumed) := Pending(cfg, s, env);
      SavedAt(s, consumed);
      if messages != [] {
        SavedAt(s.(log := s.log + [Batch(SessionOf(cfg, env.clock, messages), messages)]), consumed);
      }
    }
    hide Collect, IsConfigured, CursorValue, SessionOf, Saved;
  }

  predicate Moves(pending: (seq<SyncMessage>, nat), loaded: nat, post: Post)
  {
    if pending.0 == [] then pending.1 > loaded else post.sent && 200 <= post.code < 300
  }

  lemma SavedAt(s: Store, offset: nat)
    requires offset < U64
    ensures CursorValue(Saved(s, offset, Complete).0.cursor) == offset
  {
    SavedValue(s, offset, Complete);
    hide CursorValue;
  }

  // Draining is a row of syncs, each in the store that the one before left; all but the last answer true, and the
  // drain answers true exactly when the last one does or there was none.
  lemma {:induction false} DrainTrace(cfg: Config, s: Store, envs: seq<Env>) returns (states: seq<Store>)
    ensures 1 <= |states| <= |envs| + 1 && states[0] == s && SyncAll(cfg, s, envs).0 == states[|states| - 1]
    ensures forall i :: 0 <= i < |states| - 1 ==> states[i + 1] == SyncNow(cfg, states[i], envs[i]).0
    ensures forall i :: 0 <= i < |states| - 2 ==> SyncNow(cfg, states[i], envs[i]).1
    ensures SyncAll(cfg, s, envs).1 <==> |states| == 1 || SyncNow(cfg, states[|states| - 2], envs[|states| - 2]).1
    decreases |envs|
  {
    hide SyncNow, Load;
    states := [s];
    if envs != [] {
      var env := envs[0];
      var before, size := Load(s, env.looks.before), if env.looks.size then |s.file| else 0;
      if before < size {
        var (next, ok) := SyncNow(cfg, s, env);
        if !ok || Load(next, env.looks.after) <= before {
          states := [s, next];
        } else {
          var rest := DrainTrace(cfg, next, envs[1..]);
          states := [s] + rest;
        }
      }
    }
  }

  // ---- Runs ----

  // The clocks a run of events has seen at its syncs.
  function Clocks(events: seq<Event>): set<int>
  {
    if events == [] then {}
    else
      Clocks(events[..|events| - 1]) +
      match events[|events| - 1]
      case Sync(env) => {env.clock}
      case Drain(envs) => (set k | 0 <= k < |envs| :: envs[k].clock)
      case _ => {}
  }

  ghost predicate AllFiled(cfg: Config, log: seq<Batch>, clocks: set<int>)
  {
    forall k :: 0 <= k < |log| ==> FiledByOne(cfg, log[k], clocks)
  }

  ghost predicate FiledByOne(cfg: Config, b: Batch, clocks: set<int>)
  {
    exists clock :: clock in clocks && FiledBy(cfg, b, clock)
  }

  lemma FiledMore(cfg: Config, s: Store, env: Env, clocks: set<int>)
    requires AllFiled(cfg, s.log, clocks) && env.clock in clocks
    ensures AllFiled(cfg, SyncNow(cfg, s, env).0.log, clocks)
  {
    SyncPosts(cfg, s, env);
    hide SyncNow, FiledBy, HasWork, Pending;
    var log := SyncNow(cfg, s, env).0.log;
    forall k | 0 <= k < |log|
      ensures FiledByOne(cfg, log[k], clocks)
    {
      if k < |s.log| {
        assert log[k] == s.log[k];
      }
    }
  }

  lemma {:induction false} DrainFiles(cfg: Config, s: Store, envs: seq<Env>, clocks: set<int>)
    requires AllFiled(cfg, s.log, clocks) && forall k :: 0 <= k < |envs| ==> envs[k].clock in clocks
    ensures AllFiled(cfg, SyncAll(cfg, s, envs).0.log, clocks)
    decreases |envs|
  {
    hide SyncNow, Load, AllFiled;
    if envs != [] {
      FiledMore(cfg, s, envs[0], clocks);
      DrainFiles(cfg, SyncNow(cfg, s, envs[0]).0, envs[1..], clocks);
    }
  }

  lemma FiledWider(cfg: Config, log: seq<Batch>, some: set<int>, more: set<int>)
    requires AllFiled(cfg, log, some) && some <= more
    ensures AllFiled(cfg, log, more)
  {
    hide FiledBy;
  }

  // Over every run each batch on the server stands in the session that a clock of the run, or its own first message,
  // names.
  lemma {:induction false} RunFiles(cfg: Config, events: seq<Event>)
    ensures AllFiled(cfg, Run(cfg, events).log, Clocks(events))
  {
    if events != [] {
      var before, e := events[..|events| - 1], events[|events| - 1];
      var s := Run(cfg, before);
      RunFiles(cfg, before);
      FiledWider(cfg, s.log, Clocks(before), Clocks(events));
      hide SyncNow, SyncAll, AllFiled;
      match e
      case Append(_) =>
      case Sync(env) => FiledMore(cfg, s, env, Clocks(events));
      case Drain(envs) => DrainFiles(cfg, s, envs, Clocks(events));
      case Reset(_) =>
    }
  }

  // Two batches of one device that were posted with set clocks share a session exactly when the clocks show the same
  // UTC day.
  lemma SessionPerDay(cfg: Config, a: Batch, b: Batch, clockA: int, clockB: int)
    requires clockA > 1700000000 && clockB > 1700000000 && FiledBy(cfg, a, clockA) && FiledBy(cfg, b, clockB)
    ensures a.sessionId == b.sessionId <==> clockA / 86400 == clockB / 86400
  {
    SessionIdPerUtcDay(cfg.deviceId, clockA, clockB);
  }

  // A run whose clocks are set and all show one day fills one session: that of this day.
  lemma OneDayOneSession(cfg: Config, events: seq<Event>, day: nat)
    requires forall clock :: clock in Clocks(events) ==> clock > 1700000000 && clock / 86400 == day
    ensures forall k :: 0 <= k < |Run(cfg, events).log| ==>
              Run(cfg, events).log[k].sessionId == DailySessionId(cfg.deviceId, 86400 * day)
  {
    RunFiles(cfg, events);
    var log := Run(cfg, events).log;
    hide Run, DailySessionId;
    forall k | 0 <= k < |log|
      ensures log[k].sessionId == DailySessionId(cfg.deviceId, 86400 * day)
    {
      assert FiledByOne(cfg, log[k], Clocks(events));
      var clock :| clock in Clocks(events) && FiledBy(cfg, log[k], clock);
      SessionIdPerUtcDay(cfg.deviceId, clock, 86400 * day);
    }
  }
}
