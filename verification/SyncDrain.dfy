// How many batches draining the memory file takes: bridge/firmware/sync_client.cpp:164-180, 231-247.
module SyncDrain {
  import opened Prelude
  import opened SyncSpec
  import opened SyncRuns

  // Everything works: posts are accepted, saves succeed and the card yields every line.
  predicate Perfect(cfg: Config, s: Store, env: Env)
  {
    && IsConfigured(cfg) && env.mounted && Faithful(env) && env.lineReads >= |s.file|
    && env.post.sent && Is2xx(env.post.code) && env.looks == Looks(true, true, true)
  }

  predicate Sent(l: string, deviceId: string)
    requires IsLine(l)
  {
    LineMessage(l, deviceId).Some?
  }

  function Eligible(lines: seq<string>, deviceId: string): nat
    requires AllLines(lines)
  {
    |Messages(lines, deviceId)|
  }

  // A batch takes all lines, or stops just after its last permitted message.
  lemma {:induction false} TakenCount(lines: seq<string>, deviceId: string, room: nat, lineReads: nat)
    requires AllLines(lines) && lineReads >= |lines|
    ensures var t := Taken(lines, deviceId, room, lineReads);
            && Eligible(lines[..t], deviceId) <= room
            && (t < |lines| ==> Eligible(lines[..t], deviceId) == room)
            && (room > 0 && Eligible(lines[..t], deviceId) == room ==> t > 0 && Sent(lines[t - 1], deviceId))
  {
    hide LineMessage;
    var t := Taken(lines, deviceId, room, lineReads);
    if room > 0 && lines != [] {
      TakenCount(lines[1..], deviceId, if Sent(lines[0], deviceId) then room - 1 else room, lineReads - 1);
      assert lines[..t][1..] == lines[1..][..t - 1];
      if t > 1 {
        assert lines[t - 1] == lines[1..][t - 2];
      }
    } else {
      assert lines[..t] == [];
    }
  }

  // Reading past the number of lines changes nothing.
  lemma {:induction false} TakenEnough(lines: seq<string>, deviceId: string, room: nat, lineReads: nat)
    requires AllLines(lines) && lineReads >= |lines|
    ensures Taken(lines, deviceId, room, lineReads) == Taken(lines, deviceId, room, |lines|)
  {
    hide LineMessage;
    if room > 0 && lines != [] {
      TakenEnough(lines[1..], deviceId, if Sent(lines[0], deviceId) then room - 1 else room, lineReads - 1);
    }
  }

  function BatchLines(lines: seq<string>, deviceId: string): (t: nat)
    requires AllLines(lines)
    ensures t <= |lines| && (lines != [] ==> t > 0)
  {
    Taken(lines, deviceId, MAX_BATCH, |lines|)
  }

  // Number of batches that the pending lines fill.
  function Batches(lines: seq<string>, deviceId: string): nat
    requires AllLines(lines)
    decreases |lines|
  {
    if lines == [] then 0 else 1 + Batches(lines[BatchLines(lines, deviceId)..], deviceId)
  }

  // In closed form: one more than the full batches, except when the last full batch ends the file.
  lemma {:induction false} BatchesExact(lines: seq<string>, deviceId: string)
    requires AllLines(lines)
    ensures var e := Eligible(lines, deviceId);
            Batches(lines, deviceId) ==
            if lines == [] || (e > 0 && e % 200 == 0 && Sent(lines[|lines| - 1], deviceId)) then e / 200
            else e / 200 + 1
    decreases |lines|
  {
    hide LineMessage, Messages, Taken;
    if lines == [] {
      NoMessages(deviceId);
    } else {
      var t := BatchLines(lines, deviceId);
      var rest := lines[t..];
      TakenCount(lines, deviceId, MAX_BATCH, |lines|);
      assert lines == lines[..t] + rest;
      MessagesConcat(lines[..t], rest, deviceId);
      BatchesExact(rest, deviceId);
      if rest == [] {
        NoMessages(deviceId);
      } else {
        assert rest[|rest| - 1] == lines[|lines| - 1];
        if Sent(rest[|rest| - 1], deviceId) {
          LastSent(rest, deviceId);
        }
      }
    }
  }

  lemma NoMessages(deviceId: string)
    ensures Messages([], deviceId) == []
  {
  }

  lemma LastSent(lines: seq<string>, deviceId: string)
    requires AllLines(lines) && lines != [] && Sent(lines[|lines| - 1], deviceId)
    ensures Eligible(lines, deviceId) > 0
  {
    var n := |lines| - 1;
    hide LineMessage;
    assert lines == lines[..n] + [lines[n]];
    MessagesConcat(lines[..n], [lines[n]], deviceId);
  }

  // A successful sync reaches the end of the file or delivers exactly 200 messages.
  lemma FullBatchOrEnd(cfg: Config, s: Store, env: Env, lines: seq<string>, i: nat) returns (j: nat)
    requires Exact(s, lines, i, cfg.deviceId) && Perfect(cfg, s, env)
    ensures i <= j <= |lines| && j == i + BatchLines(lines[i..], cfg.deviceId)
    ensures j == |lines| || |Messages(lines[i..j], cfg.deviceId)| == 200
    ensures Exact(SyncNow(cfg, s, env).0, lines, j, cfg.deviceId) && SyncNow(cfg, s, env).1
  {
    hide LineMessage, Messages, Taken, SyncNow;
    j := SyncExact(cfg, s, env, lines, i);
    LinesFit(lines, i);
    TakenEnough(lines[i..], cfg.deviceId, MAX_BATCH, env.lineReads);
    TakenCount(lines[i..], cfg.deviceId, MAX_BATCH, |lines[i..]|);
    assert lines[i..][..j - i] == lines[i..j];
  }

  lemma LinesFit(lines: seq<string>, i: nat)
    requires AllLines(lines) && i <= |lines|
    ensures |lines[i..]| <= |Flatten(lines)|
  {
    StartEnd(lines);
    StartOrder(lines, 0, |lines|);
  }

  // With everything working, draining ends at the end of the file exactly when it is allowed as many
  // batches as the pending lines fill.
  lemma {:induction false} DrainReachesEnd(cfg: Config, s: Store, envs: seq<Env>, lines: seq<string>, i: nat)
    requires Exact(s, lines, i, cfg.deviceId) && forall k :: 0 <= k < |envs| ==> Perfect(cfg, s, envs[k])
    ensures var (after, ok) := SyncAll(cfg, s, envs);
            && ok
            && (CursorValue(after.cursor) == |s.file| <==> |envs| >= Batches(lines[i..], cfg.deviceId))
    decreases |envs|
  {
    hide LineMessage, SyncNow, BatchLines, CursorValue, IsConfigured;
    StartEnd(lines);
    StartOrder(lines, i, |lines|);
    if envs != [] && i < |lines| {
      var env := envs[0];
      var j := FullBatchOrEnd(cfg, s, env, lines, i);
      var next := SyncNow(cfg, s, env).0;
      StartOrder(lines, i, j);
      assert lines[i..][j - i..] == lines[j..];
      DrainReachesEnd(cfg, next, envs[1..], lines, j);
    }
  }

  // One batch more than the full ones is always enough, whatever the pending lines are.
  lemma DrainBound(cfg: Config, s: Store, envs: seq<Env>, lines: seq<string>, i: nat)
    requires Exact(s, lines, i, cfg.deviceId) && forall k :: 0 <= k < |envs| ==> Perfect(cfg, s, envs[k])
    requires |envs| >= Eligible(lines[i..], cfg.deviceId) / 200 + 1
    ensures var (after, ok) := SyncAll(cfg, s, envs);
            && ok && CursorValue(after.cursor) == |s.file|
            && Received(after.log) == Messages(lines, cfg.deviceId)
  {
    hide LineMessage, SyncAll, Messages, Batches, CursorValue, IsConfigured, Eligible, Flatten, Start, IsLine;
    BatchesExact(lines[i..], cfg.deviceId);
    DrainReachesEnd(cfg, s, envs, lines, i);
    var j := DrainExact(cfg, s, envs, lines, i);
    DrainKeepsFile(cfg, s, envs);
    StartEnd(lines);
    StartOrder(lines, j, |lines|);
    assert lines[..|lines|] == lines;
  }
}
