# Browser-automation agent: a Dafny model of its message and frame core

The agent connects to a backend over a websocket. It answers JSON remote-procedure-call
messages by running browser-automation capabilities. It also streams the latest screenshot
of each run as binary frames. This project models the parts of the agent that decide what
goes over the wire, and proves properties of that model:

- **Envelope framing** (`Envelope`): the 4-byte big-endian header length, then the header
  bytes, then the payload. `Split` is the peer's decoder, stated only to express the round
  trip.
- **Endpoint construction** (`Endpoint`): `_build_uri`, the `ws://`/`wss://` acceptance
  check, and the older client's fixed prefix.
- **Capability registries** (`Registry`): both `FUNCTION_MAP`s and the
  `list_available_methods` listing.
- **The two `handle_message` variants**:
  - `Dispatch`: the websocket handler, which falls back from `id` to `kwargs._run_test_id`
    and leaves out an id that is falsy (an error response still carries it);
  - `ClientDispatch`: the standalone client, whose `id` comes only from
    `kwargs._run_test_id` and is always written.
- **Frame dedup and idle steps** (`Streamer`): the two streaming loops, one iteration at a
  time, with their `last_hash` / `last_sent_ts` state.
- **The latest-frame store** (`FrameStore`): the three run-id-keyed maps of the capture
  module and the effects of starting, storing, stopping and failing.
- **The agent's helper functions**:
  - `clean_html` (`Html`), with `re.sub` of `<tag[^>]*>.*?</tag>` modelled as a
    leftmost-shortest, non-overlapping scan;
  - the map effect of `stop_all_drivers` (`Drivers`);
  - the line filter, argument pairing and driver rewrite of `log_function_definition`
    (`ReplayLog`).

The following are parameters of the model rather than part of it:

- JSON decoding (`parse`);
- the capability call (`invoke`, which returns the value or `str(e)` of what was raised);
- docstrings (`docOf`);
- SHA-256 (`hash`);
- the compact JSON encoding of a frame header (`encode`);
- thread liveness (`isAlive`);
- PNG-to-JPEG conversion (an `Option<Bytes>`);
- the clock (integer ticks);
- the outcome of a websocket send (`sendOk`).

Python semantics the handlers depend on are written out in full:

- dict insertion order (`Dict`; `json.dumps` writes keys in that order);
- truthiness and `or`;
- `dict.get` on a non-dict raising `AttributeError`;
- `x in dict` on a list or dict raising `TypeError`;
- `str.strip`.

Small shared modules: `Common` (`Option`, bytes, subsequences), `Strings`, `Dict` and `Json`.

## Model

| member | source | states |
|---|---|---|
| Envelope.PackU32 | websocket_handler.py:50 | `struct.pack(">I", n)` is four bytes for every length below 2^32 |
| Envelope.UnpackPack | websocket_handler.py:48-50 | the big-endian prefix decodes back to the header length |
| Envelope.PackUnpack | websocket_handler.py:48-50 | every 4-byte prefix is the encoding of exactly one length |
| Envelope.MakeEnvelope | websocket_handler.py:40-50 | an envelope exists iff the header is shorter than 2^32 bytes; its length is 4 + header + payload and its first four bytes encode the header length |
| Envelope.SplitMakeEnvelope | websocket_handler.py:40-50 | splitting an envelope at 4 + the declared length gives back exactly the header bytes and the payload, an empty payload included |
| Envelope.MakeEnvelopeSplit | websocket_handler.py:40-50 | every byte string the peer accepts is the envelope of what it splits into |
| Endpoint.BuildUri | websocket_handler.py:343-356 | a `ws://`/`wss://` input is returned verbatim; otherwise the result is the base without trailing slashes, exactly one `/`, then the id without leading slashes |
| Endpoint.WsBackendUri | websocket_handler.py:326-341 | the agent connects iff the URI built from the two variables (or their defaults) has a websocket scheme, and then to exactly that URI |
| Endpoint.WsBackendUriVerbatim | websocket_handler.py:326-341 | a full `ws://` or `wss://` address in `BACKEND_WS_URI` is connected to unchanged, whatever the base |
| Endpoint.WsBackendUriDefaults | websocket_handler.py:328-333 | with both variables unset the agent connects to `wss://beta.barkoagent.com/ws/default_client_id` |
| Endpoint.SchemedBaseAccepts | websocket_handler.py:343-356 | a base with a websocket scheme and a non-slash character after it accepts every client id |
| Endpoint.DefaultBaseAlwaysAccepted | websocket_handler.py:326-335 | with the default base, every `BACKEND_WS_URI` value passes the scheme check |
| Endpoint.NonWsBaseRefused | websocket_handler.py:331-335 | a client id joined to a base not starting with `ws` is refused |
| Endpoint.ClientBackendUri | client.py:182-186 | the client's URI is the fixed `wss://beta.barkoagent.com/ws/` prefix plus the id, so the scheme check always passes |
| Registry.PublicMembers | websocket_handler.py:34-38 | the table keeps, in order, exactly the members whose names do not start with `_` |
| Registry.ArgNames | websocket_handler.py:191-195 | the listed arguments are the parameters in signature order with every `_run_test_id` removed and nothing else removed |
| Registry.Describe | websocket_handler.py:196-200 | a description holds exactly `name`, `args` (the listed arguments) and `doc` (the docstring, or `""` when there is none), in that order |
| Registry.MethodList | websocket_handler.py:189-200 | one description per registry entry, in table order |
| Registry.ListingOmitsRunId | websocket_handler.py:188-200 | a string is in the `i`-th entry's listed `args` array if and only if it is one of that function's parameter names and is not `_run_test_id` |
| Registry.ClientListing | client.py:26-45 | the client's table lists exactly its eighteen names, in declaration order |
| Registry.WsTableIsWholeModule | websocket_handler.py:34-38 | no function of the capability module is private, so the filter keeps the whole module |
| Registry.WsTableContents | websocket_handler.py:34-38 | the websocket table has 21 entries and exposes `clean_html`, `log_function_definition` and `stop_all_drivers` |
| Dispatch.ErrorResponse | websocket_handler.py:228-241 | the error dict holds exactly the keys `status`, `error` and `id`, in that order, with `status` = `error`, `error` = the message and `id` = the given id |
| Dispatch.RouteOf | websocket_handler.py:188-226 | a name is routed to a call only if it is registered and is not the introspection command |
| Dispatch.Respond | websocket_handler.py:188-226 | introspection gives success plus the listing; a known name is called once and gives `result` or `error`; an unknown name gives `Unknown function: ...`; keys other than the status keys stay as in the base dict |
| Dispatch.IdBase | websocket_handler.py:186 | the base dict has an `id` exactly when the message id is truthy |
| Dispatch.WsHandleMessage | websocket_handler.py:164-245 | every message gets a `success` or `error` response; at most one capability is called, and only a registered one |
| Dispatch.Answer | websocket_handler.py:186-241 | after the id lookup, the answer says success or error and calls at most one registered capability |
| Dispatch.AnswerKeepsId | websocket_handler.py:186-241 | a truthy id is in the answer whichever way the function lookup goes, including the `TypeError` path |
| Dispatch.WsMalformedInput | websocket_handler.py:167-241 | blank, non-JSON or non-dict input, or a falsy `id` with a non-dict `kwargs`, gives an error with a null id and the matching message, and calls nothing |
| Dispatch.WsMessageIdFails | websocket_handler.py:174 | the id lookup raises exactly when `id` is falsy and `kwargs` is present but not a dict, and the error names that `kwargs` |
| Dispatch.WsEchoesId | websocket_handler.py:174-186 | a truthy `id` is echoed in the response |
| Dispatch.WsEchoesRunTestId | websocket_handler.py:174-186 | without a truthy `id`, a truthy `kwargs._run_test_id` is echoed instead |
| Dispatch.WsOmitsFalsyId | websocket_handler.py:174-186 | when the message decodes to a dict, the id lookup succeeds with a falsy value and `function` is hashable, the response has no `id` key (the error responses of :228-241 do carry one) |
| Dispatch.WsIntrospection | websocket_handler.py:188-205 | `list_available_methods` answers success with the listing and calls nothing |
| Dispatch.WsKnownFunction | websocket_handler.py:207-220 | a registered name is called exactly once with the decoded args and kwargs; the value becomes `result`, an exception `error` |
| Dispatch.WsUnknownFunction | websocket_handler.py:221-226 | an unregistered hashable name gives `Unknown function: <str(name)>` and no call |
| Dispatch.WsUnhashableFunction | websocket_handler.py:207-241 | a list or dict as the name gives the `TypeError` message, with the id even when falsy |
| Dispatch.WsCallsIff | websocket_handler.py:168-226 | a capability is called iff the message decodes to a dict with a registered, non-reserved function name (both directions) |
| ClientDispatch.ClientIdBase | client.py:89 | the base dict has an `id` exactly when the id is not `None` |
| ClientDispatch.ClientRespond | client.py:83-118 | every response has `id` set to the message id, says success or error, and calls at most one registered capability |
| ClientDispatch.WithId | client.py:102-117 | writing `id` changes no status key and no call |
| ClientDispatch.ClientIntrospection | client.py:92-103 | `list_available_methods` answers success with the listing, under the message id, and calls nothing |
| ClientDispatch.ClientUnknownFunction | client.py:116-117 | an unregistered hashable name gives `Unknown function: <str(name)>` under the message id and calls nothing |
| ClientDispatch.ClientUnhashableFunction | client.py:106-125 | a list or dict as the name gives the `unhashable type` error under the message id and calls nothing |
| ClientDispatch.ClientHandleMessage | client.py:65-129 | a response, when produced, says success or error and calls at most one capability |
| ClientDispatch.ClientRespondsIff | client.py:77-125 | a response is produced iff the message decodes to a dict whose `kwargs` is a dict (both directions) |
| ClientDispatch.ClientIdIsRunTestId | client.py:82-117 | the response `id` is always present and is `kwargs._run_test_id`; the top-level `id` is ignored |
| ClientDispatch.ClientKnownFunction | client.py:106-115 | a registered name is called with the decoded args and kwargs; the value becomes `result`, an exception `error` |
| ClientDispatch.ClientCallsIff | client.py:81-118 | a capability is called iff the message decodes to a dict with dict `kwargs` and a registered, non-reserved name |
| ClientDispatch.ClientHandleMessageFixed | client.py:76-125 | with the id bound first, every message gets a response with an `id` key |
| ClientDispatch.ClientFixedAgrees | client.py:120-125 | the corrected handler agrees with the original wherever the original answers |
| ClientDispatch.ClientEmptyMessageUnanswered | client.py:78-125 | an empty message gets no response as written, and the empty-message error once corrected |
| Streamer.FrameHeader | websocket_handler.py:315 | the frame header has keys `id`, `type`, `seq` in that order, with type `screenshot` |
| Streamer.LoopStep | websocket_handler.py:306-324 | an absent or empty frame changes nothing; a frame is sent only if its hash differs from the last one, the hash is recorded only after a sent frame, and the envelope splits into the header and the frame; a truthy frame with a new hash, a header below 2^32 bytes and a successful send is always sent and recorded |
| Streamer.LoopRun | websocket_handler.py:304-320 | the sent frames are an ordered selection of the non-empty polled frames, and no two consecutive sends have the same hash |
| Streamer.LoopIteration | websocket_handler.py:306-324 | a raising frame source ends the loop; a polled value goes through the step |
| Streamer.LoopBreakIff | websocket_handler.py:306-324 | the loop ends exactly when the source raises, or a new truthy frame cannot be enveloped or sent |
| Streamer.LoopStepIsRunHead | websocket_handler.py:312-318 | one step sends exactly what the run sends first |
| Streamer.LoopRunRepeatSent | websocket_handler.py:312-318 | holding an already-sent frame sends nothing more |
| Streamer.LoopRunIdenticalFrames | websocket_handler.py:312-318 | N identical frames produce one send |
| Streamer.LoopRunChangedFrame | websocket_handler.py:312-318 | a changed frame produces exactly one more send |
| Streamer.LoopRunAppend | websocket_handler.py:304-320 | after a send, later polls are decided from the sent frame's hash |
| Streamer.SendPhase | websocket_handler.py:114-127 | a send either succeeds with an envelope splitting into header and frame, or leads to a reconnect; the state is kept |
| Streamer.IdlePhase | websocket_handler.py:130-136 | without a frame the state is kept and the loop either goes on or stops |
| Streamer.StreamStep | websocket_handler.py:91-136 | a sent envelope carries the present frame with `seq` = now; stopping happens only without a frame |
| Streamer.StreamIdleIff | websocket_handler.py:130-136 | the idle stop fires iff there is no frame, a limit is set and `now - (last_sent_ts or 0)` reaches it; no state changes |
| Streamer.StreamDedupIff | websocket_handler.py:102-110 | with dedup on, a frame is skipped iff its hash equals the recorded one; skipping changes nothing |
| Streamer.StreamNoDedupSendsAll | websocket_handler.py:111-121 | with dedup off, every present frame is sent |
| Streamer.StreamDedupSends | websocket_handler.py:102-121 | with dedup on, a frame with a new hash is sent when the send succeeds, its hash and time are recorded, and the same frame polled again is skipped |
| Streamer.StreamStepFixed | websocket_handler.py:102-127 | the recorded hash changes only on a successful send of that frame |
| Streamer.StreamFixedAgrees | websocket_handler.py:102-127 | the correction changes nothing unless the iteration reconnects |
| Streamer.StreamFailedFrameSkipped | websocket_handler.py:104-127 | as written, a frame whose send failed is skipped as a duplicate after the reconnect |
| Streamer.StreamFixedResendsFailedFrame | websocket_handler.py:104-127 | with the hash recorded after the send, the same frame is sent after the reconnect |
| FrameStore.GetLatestFrame | streaming.py:111-119 | `None` iff no frame is stored for the run id, otherwise the stored bytes |
| FrameStore.FrameBytes | streaming.py:49-53 | the JPEG bytes, or the PNG bytes when conversion failed |
| FrameStore.StoreFrame | streaming.py:55-57 | the run id's slot holds the new frame and time; nothing else changes |
| FrameStore.StartStream | streaming.py:66-87 | a no-op while a live thread is registered; otherwise a fresh thread and stop event are registered and nothing else changes |
| FrameStore.StopStream | streaming.py:90-108 | the join raises iff the caller is the stream's own thread; otherwise all three entries are removed after the stop event is set |
| FrameStore.StopStreamClears | streaming.py:94-106 | stopping from outside removes the frame, signals the stop event, and leaves other run ids alone |
| FrameStore.StopUnknownRunId | streaming.py:94-106 | stopping an unknown run id changes no map |
| FrameStore.StoreOverwrites | streaming.py:55-57 | only the latest frame is kept |
| FrameStore.StorePngFallback | streaming.py:49-57 | a failed conversion stores the PNG bytes |
| FrameStore.WorkerIteration | streaming.py:39-61 | a capture stores the frame; a failed capture ends the worker |
| FrameStore.WorkerFailureLeavesStaleFrame | streaming.py:41-47 | as written, a worker whose capture fails leaves its last frame readable and its thread registered |
| FrameStore.StopStreamFixed | streaming.py:90-108 | the corrected stop always removes all three entries and signals the stop event |
| FrameStore.WorkerIterationFixed | streaming.py:39-61 | with the corrected stop, a failed capture leaves no frame behind |
| FrameStore.StopStreamFixedAgrees | streaming.py:90-108 | the corrected stop agrees with the original whenever the original returns |
| FrameStore.StartIsIdempotentWhileAlive | streaming.py:71-75 | starting again while the stream lives changes nothing |
| Html.SpanLength | agent_func.py:12 | the match at the start of the text, if any, is the shortest one; without one, no prefix matches |
| Html.StripTagSubseq | agent_func.py:12 | a pass only deletes characters and keeps the rest in order |
| Html.StripTagChangesIff | agent_func.py:12 | a pass changes the text iff it contains a match, and then shortens it |
| Html.CleanHtml | agent_func.py:10-13 | the result is a subsequence of the input and never longer |
| Html.CleanHtmlNoTags | agent_func.py:10-13 | text without `<script`, `<style` or `<svg` is returned unchanged |
| Html.CleanHtmlSinglePass | agent_func.py:10-13 | for any plain tag name (`script`, `style` and `svg` are, by Html.CleanedTagsPlain), removing the inner element of `<` + `<tag></tag>` + `tag></tag>` joins the text around it into `<tag></tag>`, a span one pass leaves in place |
| Drivers.StopAllDrivers | agent_func.py:15-23 | every entry's `quit` is attempted in map order, the failures are exactly the entries whose `quit` raises, and the map ends empty |
| Drivers.FailuresIff | agent_func.py:17-22 | a run id is reported as failed iff one of its entries' `quit` raises |
| ReplayLog.DropFirst | agent_func.py:47-53 | at most one line is dropped |
| ReplayLog.DropFirstDefAt | agent_func.py:47-53 | when line `i` is the first line whose stripped form starts with `def `, the result is the input with line `i` removed |
| ReplayLog.DropFirstDefNone | agent_func.py:47-53 | without such a line nothing is dropped |
| ReplayLog.KeptBy | agent_func.py:58-88 | no kept line contains `"""` or is a bookkeeping line (`log_function_definition(`, `stop_all_drivers()`, `clean_html(`, `return`, `global`) |
| ReplayLog.FilterLines | agent_func.py:58-88 | the loop computes the filter, and its output is an order-preserving selection of unchanged input lines with none of the dropped kinds |
| ReplayLog.KeptSubseq | agent_func.py:58-88 | the kept lines are a subsequence of the input |
| ReplayLog.KeptAppend | agent_func.py:59-71 | filtering a concatenation is filtering each part, the second starting from the docstring flag the first leaves |
| ReplayLog.KeptNoDocstring | agent_func.py:73-88 | without triple quotes, exactly the non-bookkeeping lines are kept |
| ReplayLog.DocstringDropped | agent_func.py:59-71 | a docstring block is dropped whole and the lines around it are filtered as if it were absent |
| ReplayLog.InsideDocstring | agent_func.py:59-71 | inside a docstring, quote-free lines and then the closing line are dropped, and the scan resumes outside |
| ReplayLog.Zip | agent_func.py:98-99 | `zip` pairs up to the shorter sequence, position by position |
| ReplayLog.PairParamsGet | agent_func.py:96-102 | a keyword argument wins; otherwise a parameter takes the positional argument at its position; a name with neither has no entry |
| ReplayLog.DriverRewriteUntouched | agent_func.py:116-119 | a line without `driver[_run_test_id]` is unchanged |
| ReplayLog.DriverRewriteLength | agent_func.py:116-119 | each rewrite removes exactly the 14 characters of `[_run_test_id]`; the length is unchanged iff there is no occurrence |
| ReplayLog.DriverRewriteFirst | agent_func.py:116-119 | the first occurrence becomes `driver`, the text before it is kept and the rest is rewritten the same way |

## Left out

- Connection lifecycle: `connect_to_backend`, `command_loop`, `handle_and_send`, the reconnect loops and `client.main`'s loop. These are network I/O and scheduling. A reconnect appears only as the `Reconnect`/`Break` outcome of a step.
- Concurrency: the semaphore, `call_maybe_blocking`/`to_thread`, the capture threads and the lock. Each store operation is one atomic map update.
- The browser capabilities of the capability module. These wrap a browser library that is not part of this model; their behaviour is the `invoke` parameter.
- `log_function_definition` steps that depend on reflection and I/O: `inspect.getsource`, `signature`, `splitlines`, the `\bparam=param\b` substitution with `repr`, the `selenium_url` replacement (including its `KeyError` when the keyword is missing), `textwrap.dedent` and the file append.
- JSON serialisation of the response. The model returns the response dict that `json.dumps` would write, so a result `json.dumps` cannot serialise, which makes the handler raise, is not represented.
- JSON floats. Numbers are integers.
- The exact message of a `TypeError` raised while unpacking non-list `args` or non-dict `kwargs` into the call. It is part of the abstract capability outcome, and the attempted call is still recorded.
- SHA-256, PNG-to-JPEG conversion and the header's JSON encoding are uninterpreted functions or inputs.
- Float timing: poll intervals, fps and float timestamps. Clock values are integer ticks, and `seq` is the tick itself rather than `int()` of a float.
- Progress and error logging, including the messages `stop_all_drivers` prints.
- `ws_stream_server.py`, an HTTP server outside the agent's core.
- Streamer.LoopRun: assumes every send succeeds; a failed send is covered by `LoopStep` alone.
- FrameStore.WorkerIteration: models one iteration of the worker loop; the `stop_event.wait` pauses and the loop condition are left out.
- ClientDispatch.ClientRespond: its own contract states the id, the status and the call bound only; the per-route answers are stated at the handler level by ClientIntrospection, ClientKnownFunction, ClientUnknownFunction and ClientUnhashableFunction, which keeps each proof small.
- ReplayLog.PairParamsGet: requires distinct parameter names, which every Python signature has.
- Html.SpanLength: the regex `<tag[^>]*>.*?</tag>` is modelled for a literal tag name only, with no general regular-expression engine.

## Findings

| source | as written | input that shows it | evidently intended | confidence | as-written member | corrected member |
|---|---|---|---|---|---|---|
| client.py:82 | `message_id` is first assigned inside the `try`, after the emptiness check and `json.loads`; the `except` handlers at lines 122 and 125 read it, so they raise `UnboundLocalError` and no response is sent | the text message `""` (or any text that is not JSON) | an error response with `id` null, as the websocket handler gives by binding `message_id = None` before its `try` | not executed | ClientDispatch.ClientHandleMessage (shown by ClientDispatch.ClientEmptyMessageUnanswered) | ClientDispatch.ClientHandleMessageFixed (with ClientDispatch.ClientFixedAgrees) |
| websocket_handler.py:104-127 | with dedup on, `last_hash` is updated before `ws.send`; when the send fails the loop reconnects and the same frame is then skipped as a duplicate | a new frame whose first send raises, followed by the same frame after the reconnect | record the hash only after a successful send, as `streaming_loop` does at line 318 | not executed | Streamer.StreamStep (shown by Streamer.StreamFailedFrameSkipped) | Streamer.StreamStepFixed (with Streamer.StreamFixedResendsFailedFrame) |
| streaming.py:42-47 | a worker whose capture fails calls `stop_stream` for its own run id; `thread.join` on the current thread raises `RuntimeError`, so the three entries are never removed | a registered worker whose `get_screenshot_as_png` raises while a frame is stored | the cleanup runs and the stale frame is no longer served | not executed | FrameStore.WorkerIteration (shown by FrameStore.WorkerFailureLeavesStaleFrame) | FrameStore.WorkerIterationFixed (with FrameStore.StopStreamFixed) |
