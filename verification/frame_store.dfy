/** The latest-frame store of the capture module: three maps keyed by run id
    (`_STREAM_THREADS`, `_STREAM_FLAGS`, `_LATEST_FRAMES`) and their effects.
    Threads and stop events are opaque handles (numbers); which handles belong
    to live threads, which thread is calling, the PNG-to-JPEG conversion and the
    clock are inputs. Locking is not modelled: every operation is one atomic
    map update. */
module FrameStore {
  import opened Common

  /** A stored frame: the bytes and the capture time. */
  datatype Slot = Slot(bytes: Bytes, capturedAt: int)

  datatype Store = Store(threads: map<string, nat>, flags: map<string, nat>, signalled: set<nat>,
                         frames: map<string, Slot>)

  const EMPTY_STORE := Store(map[], map[], {}, map[])

  /** The three maps agree on every run id other than `runId`. */
  ghost predicate SameOutside(a: Store, b: Store, runId: string) {
    && (forall k :: k != runId ==> (k in a.threads <==> k in b.threads))
    && (forall k :: k != runId && k in a.threads ==> a.threads[k] == b.threads[k])
    && (forall k :: k != runId ==> (k in a.flags <==> k in b.flags))
    && (forall k :: k != runId && k in a.flags ==> a.flags[k] == b.flags[k])
    && (forall k :: k != runId ==> (k in a.frames <==> k in b.frames))
    && (forall k :: k != runId && k in a.frames ==> a.frames[k] == b.frames[k])
  }

  /** `get_latest_frame(run_id)`. */
  function GetLatestFrame(st: Store, runId: string): (r: Option<Bytes>)
    ensures r.None? <==> runId !in st.frames
    ensures r.Some? ==> r.value == st.frames[runId].bytes
  {
    if runId in st.frames then Some(st.frames[runId].bytes) else None
  }

  /** `_png_to_jpeg_bytes` with its fallback: the converted bytes, or the PNG
      itself when decoding or encoding failed (`jpeg` is `None`). */
  function FrameBytes(png: Bytes, jpeg: Option<Bytes>): (b: Bytes)
    ensures jpeg.None? ==> b == png
    ensures jpeg.Some? ==> b == jpeg.value
  {
    jpeg.GetOr(png)
  }

  /** The worker's `_LATEST_FRAMES[run_id] = (jpeg_bytes, time.time())`. */
  function StoreFrame(st: Store, runId: string, png: Bytes, jpeg: Option<Bytes>, now: int): (r: Store)
    ensures r.threads == st.threads && r.flags == st.flags && r.signalled == st.signalled
    ensures SameOutside(r, st, runId)
    ensures runId in r.frames && r.frames[runId] == Slot(FrameBytes(png, jpeg), now)
  {
    st.(frames := st.frames[runId := Slot(FrameBytes(png, jpeg), now)])
  }

  /** `start_stream`: nothing happens when a live thread is registered for the
      run id; otherwise the fresh thread `t` and stop event `f` are registered
      (replacing a dead thread's entries). The stored frame is kept. */
  function StartStream(st: Store, runId: string, isAlive: nat -> bool, t: nat, f: nat): (r: Store)
    ensures runId in st.threads && isAlive(st.threads[runId]) ==> r == st
    ensures !(runId in st.threads && isAlive(st.threads[runId])) ==>
              && runId in r.threads && r.threads[runId] == t
              && runId in r.flags && r.flags[runId] == f
              && r.frames == st.frames && r.signalled == st.signalled
              && SameOutside(r, st, runId)
  {
    if runId in st.threads && isAlive(st.threads[runId]) then st
    else st.(threads := st.threads[runId := t], flags := st.flags[runId := f])
  }

  /** How `stop_stream` ended: it returned, or `thread.join` raised
      `RuntimeError` because the caller is the thread being joined. */
  datatype StopOutcome = Stopped(store: Store) | JoinRaised(store: Store)

  /** The stop event of `runId`, set. */
  function Signal(st: Store, runId: string): (r: Store)
    ensures r.threads == st.threads && r.flags == st.flags && r.frames == st.frames
    ensures runId in st.flags ==> r.signalled == st.signalled + {st.flags[runId]}
    ensures runId !in st.flags ==> r.signalled == st.signalled
  {
    if runId in st.flags then st.(signalled := st.signalled + {st.flags[runId]}) else st
  }

  /** The three `pop(run_id, None)` calls. */
  function Forget(st: Store, runId: string): (r: Store)
    ensures runId !in r.threads && runId !in r.flags && runId !in r.frames
    ensures r.signalled == st.signalled && SameOutside(r, st, runId)
  {
    st.(threads := st.threads - {runId}, flags := st.flags - {runId}, frames := st.frames - {runId})
  }

  /** `stop_stream(run_id)` called from thread `caller` (`None` for a thread
      that is not a stream worker): set the stop event, join the thread, and
      drop the three entries. */
  function StopStream(st: Store, runId: string, caller: Option<nat>): (r: StopOutcome)
    ensures r.JoinRaised? <==> runId in st.threads && caller == Some(st.threads[runId])
    ensures r.JoinRaised? ==> r.store == Signal(st, runId)
    ensures r.Stopped? ==> r.store == Forget(Signal(st, runId), runId)
  {
    var signalled := Signal(st, runId);
    if runId in st.threads && caller == Some(st.threads[runId]) then JoinRaised(signalled)
    else Stopped(Forget(signalled, runId))
  }

  /** `stop_stream` with the join skipped when the caller is the stream's own
      thread, so that the cleanup always runs. */
  function StopStreamFixed(st: Store, runId: string, caller: Option<nat>): (r: Store)
    ensures runId !in r.threads && runId !in r.flags && runId !in r.frames
    ensures SameOutside(r, st, runId)
    ensures runId in st.flags ==> st.flags[runId] in r.signalled
  {
    Forget(Signal(st, runId), runId)
  }

  /** Stopping from outside the stream clears the run id from all three maps,
      signals its stop event, and leaves every other run id alone. */
  lemma StopStreamClears(st: Store, runId: string, caller: Option<nat>)
    requires !(runId in st.threads && caller == Some(st.threads[runId]))
    ensures StopStream(st, runId, caller).Stopped?
    ensures GetLatestFrame(StopStream(st, runId, caller).store, runId).None?
    ensures forall k :: k != runId ==>
              GetLatestFrame(StopStream(st, runId, caller).store, k) == GetLatestFrame(st, k)
    ensures runId in st.flags ==> st.flags[runId] in StopStream(st, runId, caller).store.signalled
  {
  }

  /** Stopping a run id the store does not know changes nothing. */
  lemma StopUnknownRunId(st: Store, runId: string, caller: Option<nat>)
    requires runId !in st.threads && runId !in st.flags && runId !in st.frames
    ensures StopStream(st, runId, caller) == Stopped(st)
  {
    assert st.threads - {runId} == st.threads;
    assert st.flags - {runId} == st.flags;
    assert st.frames - {runId} == st.frames;
  }

  /** Only the latest frame is kept: storing twice for the same run id leaves
      the second frame, and a stored frame is what the next read returns. */
  lemma StoreOverwrites(st: Store, runId: string, png1: Bytes, jpeg1: Option<Bytes>, t1: int,
                        png2: Bytes, jpeg2: Option<Bytes>, t2: int)
    ensures var r := StoreFrame(StoreFrame(st, runId, png1, jpeg1, t1), runId, png2, jpeg2, t2);
      r == StoreFrame(st, runId, png2, jpeg2, t2) && GetLatestFrame(r, runId) == Some(FrameBytes(png2, jpeg2))
  {
  }

  /** A failed conversion stores the PNG bytes. */
  lemma StorePngFallback(st: Store, runId: string, png: Bytes, now: int)
    ensures GetLatestFrame(StoreFrame(st, runId, png, None, now), runId) == Some(png)
  {
  }

  /** How one iteration of `_stream_worker` ends: the frame stored and the loop
      going on, or the worker finished. */
  datatype WorkerOutcome = Stored(store: Store) | Exited(store: Store)

  /** One iteration of `_stream_worker` for `runId`, running as thread `me`.
      `capture` is `None` when taking the screenshot raised. As written, the
      failure path calls `stop_stream` from the worker itself. */
  function WorkerIteration(st: Store, runId: string, me: nat, capture: Option<Bytes>,
                           jpeg: Option<Bytes>, now: int): (r: WorkerOutcome)
    ensures capture.Some? ==> r == Stored(StoreFrame(st, runId, capture.value, jpeg, now))
    ensures capture.None? ==> r.Exited?
  {
    match capture
    case Some(png) => Stored(StoreFrame(st, runId, png, jpeg, now))
    case None => Exited(StopStream(st, runId, Some(me)).store)
  }

  /** The worker iteration with the corrected `stop_stream`. */
  function WorkerIterationFixed(st: Store, runId: string, me: nat, capture: Option<Bytes>,
                                jpeg: Option<Bytes>, now: int): (r: WorkerOutcome)
    ensures capture.None? ==> r.Exited? && GetLatestFrame(r.store, runId).None?
  {
    match capture
    case Some(png) => Stored(StoreFrame(st, runId, png, jpeg, now))
    case None => Exited(StopStreamFixed(st, runId, Some(me)))
  }

  /** As written, a worker whose capture fails dies without cleaning up: its own
      `join` raises, so the last frame stays readable and the dead thread stays
      registered. */
  lemma WorkerFailureLeavesStaleFrame(st: Store, runId: string, me: nat, jpeg: Option<Bytes>, now: int)
    requires runId in st.threads && st.threads[runId] == me && runId in st.frames
    ensures StopStream(st, runId, Some(me)).JoinRaised?
    ensures var r := WorkerIteration(st, runId, me, None, jpeg, now);
      GetLatestFrame(r.store, runId) == Some(st.frames[runId].bytes) &&
      runId in r.store.threads
  {
  }

  /** The corrected stop agrees with the original whenever the original returns. */
  lemma StopStreamFixedAgrees(st: Store, runId: string, caller: Option<nat>)
    requires StopStream(st, runId, caller).Stopped?
    ensures StopStreamFixed(st, runId, caller) == StopStream(st, runId, caller).store
  {
  }

  /** A started stream is registered under its run id; starting again while it
      lives changes nothing. */
  lemma StartIsIdempotentWhileAlive(st: Store, runId: string, isAlive: nat -> bool, t: nat, f: nat,
                                    t2: nat, f2: nat)
    requires isAlive(t)
    ensures var s1 := StartStream(st, runId, isAlive, t, f);
      StartStream(s1, runId, isAlive, t2, f2) == s1
  {
  }
}
