/** The screenshot-streaming decisions of the websocket handler, one loop
    iteration at a time: `streaming_loop` (the loop that shares the command
    connection) and `stream_latest_frames` (the loop with its own connection,
    reconnects and an idle timeout). The frame source, SHA-256, the clock, the
    compact JSON encoding of the header and the outcome of `ws.send` are
    inputs. Clock values are integer ticks. */
module Streamer {
  import opened Common
  import opened Json
  import opened Envelope
  import Dict

  /** `if frame:` — `None` and empty bytes are false. In `stream_latest_frames`
      a frame source that raised also yields `None`. */
  predicate FrameTruthy(frame: Option<Bytes>) {
    frame.Some? && |frame.value| > 0
  }

  /** The header dict `{"id": run_id, "type": "screenshot", "seq": seq}`. */
  function FrameHeader(runId: string, seqNo: int): (j: Json)
    ensures j.JObj? && Dict.Keys(j.fields) == ["id", "type", "seq"]
    ensures Dict.Get(j.fields, "id") == Some(JStr(runId))
    ensures Dict.Get(j.fields, "type") == Some(JStr("screenshot"))
    ensures Dict.Get(j.fields, "seq") == Some(JNum(seqNo))
  {
    var d0: Dict.Dict<string, Json> := [];
    var d1 := Dict.Put(d0, "id", JStr(runId));
    var d2 := Dict.Put(d1, "type", JStr("screenshot"));
    var d3 := Dict.Put(d2, "seq", JNum(seqNo));
    assert "type" != "id" && "seq" != "id" && "seq" != "type";
    JObj(d3)
  }

  // ---------------------------------------------------------------------------
  // streaming_loop

  /** One iteration of `streaming_loop` ends with the loop going on (with the new
      `last_hash` and the envelope sent, if any) or with `break`, when building
      or sending the envelope raised. */
  datatype LoopOutcome = Continue(lastHash: Option<string>, sent: Option<Bytes>) | Break

  /** One iteration of `streaming_loop`. `wallClock` is `int(time.time())`;
      `sendOk` says whether `ws.send` returned. */
  function LoopStep(lastHash: Option<string>, frame: Option<Bytes>, runId: string, wallClock: int,
                    sendOk: bool, hash: Bytes -> string, encode: Json -> Bytes): (r: LoopOutcome)
    ensures !FrameTruthy(frame) ==> r == Continue(lastHash, None)
    ensures r.Continue? && r.sent.Some? ==>
              FrameTruthy(frame) && lastHash != Some(hash(frame.value)) &&
              r.lastHash == Some(hash(frame.value)) &&
              Split(r.sent.value) == Success((encode(FrameHeader(runId, wallClock)), frame.value))
    ensures r.Continue? && r.sent.None? ==> r.lastHash == lastHash
    ensures FrameTruthy(frame) && lastHash == Some(hash(frame.value)) ==> r == Continue(lastHash, None)
    ensures FrameTruthy(frame) && lastHash != Some(hash(frame.value)) &&
            |encode(FrameHeader(runId, wallClock))| < TWO_32 && sendOk ==>
              r.Continue? && r.lastHash == Some(hash(frame.value)) && r.sent.Some?
  {
    if !FrameTruthy(frame) then Continue(lastHash, None)
    else
      var h := hash(frame.value);
      if Some(h) == lastHash then Continue(lastHash, None)
      else
        var header := encode(FrameHeader(runId, wallClock));
        match MakeEnvelope(header, frame.value)
        case None => Break
        case Some(env) =>
          SplitMakeEnvelope(header, frame.value);
          if sendOk then Continue(Some(h), Some(env)) else Break
  }

  /** What polling `get_latest_frame` gave `streaming_loop`: a value, or an
      exception, which lands in the loop's `except` and ends it. */
  datatype Poll = Polled(frame: Option<Bytes>) | SourceRaised

  /** One iteration of `streaming_loop` including the poll. */
  function LoopIteration(lastHash: Option<string>, poll: Poll, runId: string, wallClock: int,
                         sendOk: bool, hash: Bytes -> string, encode: Json -> Bytes): (r: LoopOutcome)
    ensures poll.SourceRaised? ==> r == Break
    ensures poll.Polled? ==> r == LoopStep(lastHash, poll.frame, runId, wallClock, sendOk, hash, encode)
  {
    match poll
    case SourceRaised => Break
    case Polled(frame) => LoopStep(lastHash, frame, runId, wallClock, sendOk, hash, encode)
  }

  /** The loop ends exactly when the source raises, or when a new truthy frame
      cannot be enveloped (a header of 2^32 bytes or more) or sent. */
  lemma LoopBreakIff(lastHash: Option<string>, poll: Poll, runId: string, wallClock: int,
                     sendOk: bool, hash: Bytes -> string, encode: Json -> Bytes)
    ensures LoopIteration(lastHash, poll, runId, wallClock, sendOk, hash, encode) == Break <==>
              || poll.SourceRaised?
              || (&& FrameTruthy(poll.frame) && lastHash != Some(hash(poll.frame.value))
                  && (|encode(FrameHeader(runId, wallClock))| >= TWO_32 || !sendOk))
  {
    if poll.Polled? && FrameTruthy(poll.frame) && lastHash != Some(hash(poll.frame.value)) {
      var header := encode(FrameHeader(runId, wallClock));
      assert MakeEnvelope(header, poll.frame.value).None? <==> |header| >= TWO_32;
    }
  }

  /** The frames among `frames` that are present and non-empty, in order. */
  function TruthyFrames(frames: seq<Option<Bytes>>): (fs: seq<Bytes>)
    ensures forall b :: b in fs <==> exists i :: 0 <= i < |frames| && FrameTruthy(frames[i]) && frames[i].value == b
    decreases |frames|
  {
    if |frames| == 0 then []
    else
      var rest := TruthyFrames(frames[1..]);
      assert forall i :: 1 <= i < |frames| ==> frames[i] == frames[1..][i - 1];
      if FrameTruthy(frames[0]) then [frames[0].value] + rest else rest
  }

  /** The payloads `streaming_loop` sends for a sequence of polled frames when
      every send succeeds: the dedup rule of `LoopStep` applied in order. */
  function LoopRun(lastHash: Option<string>, frames: seq<Option<Bytes>>, hash: Bytes -> string): (sent: seq<Bytes>)
    ensures IsSubseq(sent, TruthyFrames(frames))
    ensures |sent| > 0 ==> lastHash != Some(hash(sent[0]))
    ensures forall i :: 0 <= i < |sent| - 1 ==> hash(sent[i]) != hash(sent[i + 1])
    decreases |frames|
  {
    if |frames| == 0 then []
    else
      var f := frames[0];
      var rest := frames[1..];
      if !FrameTruthy(f) || Some(hash(f.value)) == lastHash then
        var sent := LoopRun(lastHash, rest, hash);
        if FrameTruthy(f) then
          SubseqDropPrefix(sent, TruthyFrames(frames), 1);
          sent
        else sent
      else
        var tail := LoopRun(Some(hash(f.value)), rest, hash);
        SubseqCons(f.value, tail, TruthyFrames(rest));
        [f.value] + tail
  }

  /** `n` polls returning the same value. */
  function Repeat(frame: Option<Bytes>, n: nat): (fs: seq<Option<Bytes>>)
    ensures |fs| == n && forall i :: 0 <= i < n ==> fs[i] == frame
  {
    seq(n, _ => frame)
  }

  /** The running step agrees with the run: with the envelope built and sent,
      an iteration sends exactly what `LoopRun` sends first. */
  lemma LoopStepIsRunHead(lastHash: Option<string>, frame: Option<Bytes>, runId: string, wallClock: int,
                          hash: Bytes -> string, encode: Json -> Bytes)
    requires |encode(FrameHeader(runId, wallClock))| < TWO_32
    ensures var r := LoopStep(lastHash, frame, runId, wallClock, true, hash, encode);
      var sent := LoopRun(lastHash, [frame], hash);
      && r.Continue?
      && (r.sent.Some? <==> sent != [])
      && (r.sent.Some? ==> Split(r.sent.value).value.1 == sent[0])
  {
    assert [frame][1..] == [];
  }

  /** Holding an unchanged frame sends nothing more. */
  lemma {:induction false} LoopRunRepeatSent(f: Bytes, n: nat, hash: Bytes -> string)
    ensures LoopRun(Some(hash(f)), Repeat(Some(f), n), hash) == []
  {
    if n > 0 {
      assert Repeat(Some(f), n)[1..] == Repeat(Some(f), n - 1);
      LoopRunRepeatSent(f, n - 1, hash);
    }
  }

  /** N identical frames produce one send. */
  lemma LoopRunIdenticalFrames(f: Bytes, n: nat, hash: Bytes -> string)
    requires |f| > 0 && n >= 1
    ensures LoopRun(None, Repeat(Some(f), n), hash) == [f]
  {
    assert Repeat(Some(f), n)[1..] == Repeat(Some(f), n - 1);
    LoopRunRepeatSent(f, n - 1, hash);
  }

  /** Appending polls to a run: what follows is decided from the hash the run ended with. */
  lemma {:induction false} LoopRunAppend(lastHash: Option<string>, f: Bytes, n: nat, more: seq<Option<Bytes>>,
                                         hash: Bytes -> string)
    requires |f| > 0 && n >= 1 && lastHash != Some(hash(f))
    ensures LoopRun(lastHash, Repeat(Some(f), n) + more, hash) == [f] + LoopRun(Some(hash(f)), more, hash)
  {
    var fs := Repeat(Some(f), n) + more;
    assert fs[0] == Some(f);
    assert fs[1..] == Repeat(Some(f), n - 1) + more;
    LoopRunHeld(f, n - 1, more, hash);
  }

  lemma {:induction false} LoopRunHeld(f: Bytes, n: nat, more: seq<Option<Bytes>>, hash: Bytes -> string)
    ensures LoopRun(Some(hash(f)), Repeat(Some(f), n) + more, hash) == LoopRun(Some(hash(f)), more, hash)
  {
    if n > 0 {
      var fs := Repeat(Some(f), n) + more;
      assert fs[0] == Some(f);
      assert fs[1..] == Repeat(Some(f), n - 1) + more;
      LoopRunHeld(f, n - 1, more, hash);
    } else {
      assert Repeat(Some(f), 0) + more == more;
    }
  }

  /** A changed frame produces another send: `f` held `n` times then `g` held
      `m` times gives exactly the two sends `f`, `g`. */
  lemma LoopRunChangedFrame(f: Bytes, g: Bytes, n: nat, m: nat, hash: Bytes -> string)
    requires |f| > 0 && |g| > 0 && n >= 1 && m >= 1 && hash(f) != hash(g)
    ensures LoopRun(None, Repeat(Some(f), n) + Repeat(Some(g), m), hash) == [f, g]
  {
    LoopRunAppend(None, f, n, Repeat(Some(g), m), hash);
    assert Repeat(Some(g), m) == Repeat(Some(g), m) + [];
    LoopRunAppend(Some(hash(f)), g, m, [], hash);
  }

  // ---------------------------------------------------------------------------
  // stream_latest_frames

  /** `last_hash` and `last_sent_ts`. Both live outside the reconnect loop, so
      they survive a reconnect. */
  datatype StreamState = StreamState(lastHash: Option<string>, lastSentTs: Option<int>)

  /** The parameters of `stream_latest_frames` that the decisions read. */
  datatype StreamConfig = StreamConfig(runId: string, maxIdle: Option<int>, useHashDedup: bool)

  /** What an iteration does: the envelope sent, nothing sent, a `break` (or an
      exception) that leads to a reconnect, or the idle-timeout `return`. */
  datatype Action = Send(envelope: Bytes) | Skip | Reconnect | Stop

  datatype Step = Step(state: StreamState, action: Action)

  const INITIAL_STREAM_STATE := StreamState(None, None)

  /** Python `last_sent_ts or default`: `None` and `0` are false. */
  function TsOr(ts: Option<int>, default: int): int {
    if ts.Some? && ts.value != 0 then ts.value else default
  }

  /** What an iteration does after deciding to send: build the envelope with
      `seq = int(last_sent_ts or now)` and send it. */
  function SendPhase(st: StreamState, cfg: StreamConfig, frame: Bytes, now: int, sendOk: bool,
                     encode: Json -> Bytes): (s: Step)
    requires st.lastSentTs == Some(now)
    ensures s.action != Stop && s.action != Skip
    ensures s.action.Send? ==>
              s.state == st && Split(s.action.envelope) == Success((encode(FrameHeader(cfg.runId, now)), frame))
    ensures s.action.Reconnect? ==> s.state == st
  {
    var seqNo := TsOr(st.lastSentTs, now);
    var header := encode(FrameHeader(cfg.runId, seqNo));
    match MakeEnvelope(header, frame)
    case None => Step(st, Reconnect)
    case Some(env) =>
      SplitMakeEnvelope(header, frame);
      if sendOk then Step(st.(lastSentTs := Some(now)), Send(env)) else Step(st, Reconnect)
  }

  /** The idle branch: no frame this iteration. */
  function IdlePhase(st: StreamState, cfg: StreamConfig, now: int): (s: Step)
    ensures s.state == st && (s.action == Stop || s.action == Skip)
  {
    if cfg.maxIdle.Some? && now - TsOr(st.lastSentTs, 0) >= cfg.maxIdle.value then Step(st, Stop)
    else Step(st, Skip)
  }

  /** One iteration of `stream_latest_frames` as written: with dedup on, the new
      hash and timestamp are recorded before the send is attempted. */
  function StreamStep(st: StreamState, cfg: StreamConfig, frame: Option<Bytes>, now: int, sendOk: bool,
                      hash: Bytes -> string, encode: Json -> Bytes): (s: Step)
    ensures s.action.Send? ==>
              FrameTruthy(frame) &&
              Split(s.action.envelope) == Success((encode(FrameHeader(cfg.runId, now)), frame.value))
    ensures s.action.Send? ==> s.state.lastSentTs == Some(now)
    ensures s.action == Stop ==> !FrameTruthy(frame)
  {
    if FrameTruthy(frame) then
      var f := frame.value;
      if cfg.useHashDedup then
        var h := hash(f);
        if Some(h) == st.lastHash then Step(st, Skip)
        else SendPhase(StreamState(Some(h), Some(now)), cfg, f, now, sendOk, encode)
      else SendPhase(st.(lastSentTs := Some(now)), cfg, f, now, sendOk, encode)
    else IdlePhase(st, cfg, now)
  }

  /** The iteration with the hash recorded only after a successful send, as
      `streaming_loop` does. */
  function StreamStepFixed(st: StreamState, cfg: StreamConfig, frame: Option<Bytes>, now: int, sendOk: bool,
                           hash: Bytes -> string, encode: Json -> Bytes): (s: Step)
    ensures s.state.lastHash != st.lastHash ==>
              s.action.Send? && FrameTruthy(frame) && s.state.lastHash == Some(hash(frame.value))
    ensures s.action.Send? ==>
              FrameTruthy(frame) &&
              Split(s.action.envelope) == Success((encode(FrameHeader(cfg.runId, now)), frame.value))
  {
    if FrameTruthy(frame) then
      var f := frame.value;
      if cfg.useHashDedup then
        var h := hash(f);
        if Some(h) == st.lastHash then Step(st, Skip)
        else
          var s := SendPhase(StreamState(st.lastHash, Some(now)), cfg, f, now, sendOk, encode);
          if s.action.Send? then Step(s.state.(lastHash := Some(h)), s.action) else s
      else SendPhase(st.(lastSentTs := Some(now)), cfg, f, now, sendOk, encode)
    else IdlePhase(st, cfg, now)
  }

  /** The idle timeout fires exactly on an iteration without a frame, with
      `max_idle_seconds` set and at least that long since `last_sent_ts` (or 0);
      such an iteration changes no state. */
  lemma StreamIdleIff(st: StreamState, cfg: StreamConfig, frame: Option<Bytes>, now: int, sendOk: bool,
                      hash: Bytes -> string, encode: Json -> Bytes)
    ensures StreamStep(st, cfg, frame, now, sendOk, hash, encode).action == Stop <==>
              !FrameTruthy(frame) && cfg.maxIdle.Some? && now - TsOr(st.lastSentTs, 0) >= cfg.maxIdle.value
    ensures !FrameTruthy(frame) ==> StreamStep(st, cfg, frame, now, sendOk, hash, encode).state == st
  {
  }

  /** With dedup on, a present frame is skipped exactly when its hash equals the
      recorded one, and skipping changes no state. */
  lemma StreamDedupIff(st: StreamState, cfg: StreamConfig, frame: Option<Bytes>, now: int, sendOk: bool,
                       hash: Bytes -> string, encode: Json -> Bytes)
    requires cfg.useHashDedup && FrameTruthy(frame)
    ensures StreamStep(st, cfg, frame, now, sendOk, hash, encode).action == Skip <==>
              st.lastHash == Some(hash(frame.value))
    ensures StreamStep(st, cfg, frame, now, sendOk, hash, encode).action == Skip ==>
              StreamStep(st, cfg, frame, now, sendOk, hash, encode).state == st
  {
  }

  /** With dedup on, a new frame is sent when the envelope can be built and the
      send succeeds; its hash and `now` are recorded, so the same frame polled
      again is skipped. */
  lemma StreamDedupSends(st: StreamState, cfg: StreamConfig, f: Bytes, now: int, later: int,
                         sendOk: bool, hash: Bytes -> string, encode: Json -> Bytes)
    requires cfg.useHashDedup && |f| > 0 && st.lastHash != Some(hash(f))
    requires |encode(FrameHeader(cfg.runId, now))| < TWO_32
    ensures var s := StreamStep(st, cfg, Some(f), now, true, hash, encode);
      && s.action.Send?
      && s.state == StreamState(Some(hash(f)), Some(now))
      && StreamStep(s.state, cfg, Some(f), later, sendOk, hash, encode) == Step(s.state, Skip)
  {
    assert TsOr(Some(now), now) == now;
  }

  /** With dedup off, every present frame is sent when the envelope can be built
      and the send succeeds. */
  lemma StreamNoDedupSendsAll(st: StreamState, cfg: StreamConfig, f: Bytes, now: int,
                              hash: Bytes -> string, encode: Json -> Bytes)
    requires !cfg.useHashDedup && |f| > 0
    requires |encode(FrameHeader(cfg.runId, now))| < TWO_32
    ensures StreamStep(st, cfg, Some(f), now, true, hash, encode).action.Send?
  {
    assert TsOr(Some(now), now) == now;
  }

  /** The fix changes nothing unless the as-written iteration reconnects. */
  lemma StreamFixedAgrees(st: StreamState, cfg: StreamConfig, frame: Option<Bytes>, now: int, sendOk: bool,
                          hash: Bytes -> string, encode: Json -> Bytes)
    requires StreamStep(st, cfg, frame, now, sendOk, hash, encode).action != Reconnect
    ensures StreamStepFixed(st, cfg, frame, now, sendOk, hash, encode) == StreamStep(st, cfg, frame, now, sendOk, hash, encode)
  {
  }

  /** As written, a frame whose send failed is never delivered after the
      reconnect while the screen stays the same: the retry is taken for a duplicate. */
  lemma StreamFailedFrameSkipped(st: StreamState, cfg: StreamConfig, f: Bytes, t1: int, t2: int,
                                 hash: Bytes -> string, encode: Json -> Bytes)
    requires cfg.useHashDedup && |f| > 0 && st.lastHash != Some(hash(f))
    ensures StreamStep(st, cfg, Some(f), t1, false, hash, encode).action == Reconnect
    ensures var s1 := StreamStep(st, cfg, Some(f), t1, false, hash, encode).state;
      StreamStep(s1, cfg, Some(f), t2, true, hash, encode).action == Skip
  {
  }

  /** With the hash recorded after the send, the same retry delivers the frame. */
  lemma StreamFixedResendsFailedFrame(st: StreamState, cfg: StreamConfig, f: Bytes, t1: int, t2: int,
                                      hash: Bytes -> string, encode: Json -> Bytes)
    requires cfg.useHashDedup && |f| > 0 && st.lastHash != Some(hash(f))
    requires |encode(FrameHeader(cfg.runId, t2))| < TWO_32
    ensures StreamStepFixed(st, cfg, Some(f), t1, false, hash, encode).action == Reconnect
    ensures var s1 := StreamStepFixed(st, cfg, Some(f), t1, false, hash, encode).state;
      StreamStepFixed(s1, cfg, Some(f), t2, true, hash, encode).action.Send?
  {
    assert TsOr(Some(t2), t2) == t2;
  }
}
