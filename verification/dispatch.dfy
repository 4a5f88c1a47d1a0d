/** `handle_message` of the websocket handler: one inbound text message in, one
    response dict out. JSON decoding (`json.loads`) and the capability call
    (`call_maybe_blocking(func, *args, **kwargs)`) are foreign and arrive as
    parameters; the handler reports which capability calls it made, so that
    "called exactly once" and "not called" can be stated. */
module Dispatch {
  import opened Common
  import opened Strings
  import opened Json
  import opened Registry
  import Dict

  /** What `ws.recv()` delivered: a text frame, or a value that is not a `str`. */
  datatype Incoming = Text(text: string) | NonText

  /** How a capability call ended: its return value, or `str(e)` of what it raised. */
  datatype Outcome = Returned(value: Json) | Raised(message: string)

  /** One capability call `func(*args, **kwargs)`. */
  datatype Call = Call(name: string, args: Json, kwargs: Json)

  /** The response dict the handler serialises, and the capability calls it made. */
  datatype Handled = Handled(response: Json, calls: seq<Call>)

  const EMPTY_MESSAGE_ERROR := "Received an empty or invalid message."

  /** `not isinstance(message, str) or not message.strip()`. */
  predicate Blank(msg: Incoming) {
    msg.NonText? || Strip(msg.text) == []
  }

  /** The dict the `except` handlers build: `{"status": "error", "error": e, "id": message_id}`,
      a dict literal, i.e. the three keys inserted in this order. */
  function ErrorResponse(message: string, id: Json): (r: Json)
    ensures r.JObj? && Dict.Keys(r.fields) == ["status", "error", "id"]
    ensures Dict.Get(r.fields, "status") == Some(JStr("error"))
    ensures Dict.Get(r.fields, "error") == Some(JStr(message))
    ensures Dict.Get(r.fields, "id") == Some(id)
  {
    var d0: Dict.Dict<string, Json> := [];
    var d1 := Dict.Put(d0, "status", JStr("error"));
    var d2 := Dict.Put(d1, "error", JStr(message));
    var d3 := Dict.Put(d2, "id", id);
    assert "error" != "status" && "id" != "status" && "id" != "error";
    JObj(d3)
  }

  /** `response["status"]` when present. */
  function Status(response: Json): Json {
    if response.JObj? then Field(response, "status") else JNull
  }

  /** Every response the handler returns says `success` or `error`. */
  predicate WellFormedResponse(response: Json) {
    response.JObj? && (Status(response) == JStr("success") || Status(response) == JStr("error"))
  }

  /** How the handler treats the requested `function` value. */
  datatype Route =
    | Introspect                 // the reserved `list_available_methods`
    | Unhashable(message: string) // a list or dict: `in FUNCTION_MAP` raises TypeError
    | Known(name: string)        // a registered capability
    | Unknown(message: string)    // anything else

  function RouteOf(function_: Json, reg: Registry): (r: Route)
    ensures r.Known? ==> Registered(reg, r.name) && r.name != LIST_METHODS
  {
    if function_ == JStr(LIST_METHODS) then Introspect
    else if !Hashable(function_) then Unhashable(UnhashableError(function_))
    else if function_.JStr? && Registered(reg, function_.s) then Known(function_.s)
    else Unknown("Unknown function: " + PyStr(function_))
  }

  /** The `response_dict.update({...})` a route performs on the dict `base`, and the
      capability calls made on the way. Only the status keys are written. */
  function Respond(base: Dict.Dict<string, Json>, route: Route, args: Json, kwargs: Json, reg: Registry,
                   invoke: (string, Json, Json) -> Outcome): (h: Handled)
    requires !route.Unhashable?
    ensures WellFormedResponse(h.response)
    ensures forall k :: k !in ["status", "result", "error", "methods"] ==>
              Dict.Get(h.response.fields, k) == Dict.Get(base, k)
    ensures h.calls == if route.Known? then [Call(route.name, args, kwargs)] else []
    ensures route.Introspect? ==>
              Status(h.response) == JStr("success") &&
              Dict.Get(h.response.fields, "methods") == Some(JArr(MethodList(reg)))
    ensures route.Known? && invoke(route.name, args, kwargs).Returned? ==>
              Status(h.response) == JStr("success") &&
              Dict.Get(h.response.fields, "result") == Some(invoke(route.name, args, kwargs).value)
    ensures route.Known? && invoke(route.name, args, kwargs).Raised? ==>
              Status(h.response) == JStr("error") &&
              Dict.Get(h.response.fields, "error") == Some(JStr(invoke(route.name, args, kwargs).message))
    ensures route.Unknown? ==>
              Status(h.response) == JStr("error") && Dict.Get(h.response.fields, "error") == Some(JStr(route.message))
  {
    match route
    case Introspect =>
      Handled(JObj(Dict.Put(Dict.Put(base, "status", JStr("success")), "methods", JArr(MethodList(reg)))), [])
    case Known(name) =>
      var fields := match invoke(name, args, kwargs)
        case Returned(v) => Dict.Put(Dict.Put(base, "status", JStr("success")), "result", v)
        case Raised(e) => Dict.Put(Dict.Put(base, "status", JStr("error")), "error", JStr(e));
      Handled(JObj(fields), [Call(name, args, kwargs)])
    case Unknown(message) =>
      Handled(JObj(Dict.Put(Dict.Put(base, "status", JStr("error")), "error", JStr(message))), [])
  }

  /** `data.get("args", []) or []`. */
  function ArgsOf(data: Json): Json
    requires data.JObj?
  {
    Or(FieldOr(data, "args", JArr([])), JArr([]))
  }

  /** `data.get("kwargs", {}) or {}`. */
  function KwargsOf(data: Json): Json
    requires data.JObj?
  {
    Or(FieldOr(data, "kwargs", JObj([])), JObj([]))
  }

  /** The correlation id `data.get("id") or data.get("kwargs", {}).get("_run_test_id")`:
      `Found` with its value, or `GetFailed` with the non-dict whose `.get` raised. */
  datatype IdLookup = Found(id: Json) | GetFailed(receiver: Json)

  function WsMessageId(data: Json): IdLookup
    requires data.JObj?
  {
    var id := Field(data, "id");
    if Truthy(id) then Found(id)
    else
      var kw := FieldOr(data, "kwargs", JObj([]));
      if kw.JObj? then Found(Field(kw, RUN_ID_PARAM)) else GetFailed(kw)
  }

  /** `websocket_handler.handle_message`. It always returns a response; at most one
      capability is called, and only a registered one. */
  function WsHandleMessage(msg: Incoming, parse: string -> Option<Json>, reg: Registry,
                           invoke: (string, Json, Json) -> Outcome): (h: Handled)
    ensures WellFormedResponse(h.response)
    ensures |h.calls| <= 1
    ensures forall c :: c in h.calls ==> Registered(reg, c.name) && c.name != LIST_METHODS
  {
    if Blank(msg) then Handled(ErrorResponse(EMPTY_MESSAGE_ERROR, JNull), [])
    else match parse(msg.text)
      case None => Handled(ErrorResponse("Invalid JSON", JNull), [])
      case Some(data) =>
        if !data.JObj? then Handled(ErrorResponse(NoGetError(data), JNull), [])
        else match WsMessageId(data)
          case GetFailed(kw) => Handled(ErrorResponse(NoGetError(kw), JNull), [])
          case Found(mid) => Answer(data, mid, reg, invoke)
  }

  /** The part of `handle_message` after the id is known: look the function up
      and answer under `mid`. */
  function Answer(data: Json, mid: Json, reg: Registry, invoke: (string, Json, Json) -> Outcome): (h: Handled)
    requires data.JObj?
    ensures WellFormedResponse(h.response)
    ensures |h.calls| <= 1
    ensures forall c :: c in h.calls ==> Registered(reg, c.name) && c.name != LIST_METHODS
  {
    var route := RouteOf(Field(data, "function"), reg);
    if route.Unhashable? then Handled(ErrorResponse(route.message, mid), [])
    else Respond(IdBase(mid), route, ArgsOf(data), KwargsOf(data), reg, invoke)
  }

  /** `{"id": message_id} if message_id else {}`. */
  function IdBase(mid: Json): (d: Dict.Dict<string, Json>)
    ensures Dict.Get(d, "id") == if Truthy(mid) then Some(mid) else None
  {
    if Truthy(mid) then Dict.Put([], "id", mid) else []
  }

  /** The message is text that decodes to the dict `data`. */
  predicate Decoded(msg: Incoming, parse: string -> Option<Json>, data: Json) {
    !Blank(msg) && parse(msg.text) == Some(data) && data.JObj?
  }

  /** A message that is blank, is not JSON, is not a dict, or is a dict with a
      falsy `id` and a `kwargs` that is not a dict gets an error response with
      a null id, and no capability is called. */
  lemma WsMalformedInput(msg: Incoming, parse: string -> Option<Json>, reg: Registry,
                         invoke: (string, Json, Json) -> Outcome)
    requires || Blank(msg) || parse(msg.text).None? || !parse(msg.text).value.JObj?
             || WsMessageId(parse(msg.text).value).GetFailed?
    ensures var h := WsHandleMessage(msg, parse, reg, invoke);
      && Status(h.response) == JStr("error")
      && Dict.Get(h.response.fields, "id") == Some(JNull)
      && Dict.Get(h.response.fields, "error") ==
           Some(JStr(if Blank(msg) then EMPTY_MESSAGE_ERROR
                     else if parse(msg.text).None? then "Invalid JSON"
                     else if !parse(msg.text).value.JObj? then NoGetError(parse(msg.text).value)
                     else NoGetError(WsMessageId(parse(msg.text).value).receiver)))
      && h.calls == []
  {
  }

  /** The lookup fails exactly when `id` is falsy and `kwargs` is present but
      not a dict; the failing receiver is that `kwargs`. */
  lemma WsMessageIdFails(data: Json)
    requires data.JObj?
    ensures WsMessageId(data).GetFailed? <==>
              !Truthy(Field(data, "id")) && !FieldOr(data, "kwargs", JObj([])).JObj?
    ensures WsMessageId(data).GetFailed? ==> WsMessageId(data).receiver == FieldOr(data, "kwargs", JObj([]))
  {
  }

  /** A truthy `id` is echoed in the response, whatever else happens after decoding. */
  lemma WsEchoesId(msg: Incoming, parse: string -> Option<Json>, data: Json, reg: Registry,
                   invoke: (string, Json, Json) -> Outcome)
    requires Decoded(msg, parse, data)
    requires Truthy(Field(data, "id"))
    ensures Dict.Get(WsHandleMessage(msg, parse, reg, invoke).response.fields, "id") == Some(Field(data, "id"))
  {
    assert WsMessageId(data) == Found(Field(data, "id"));
    WsFoundAnswers(msg, parse, data, reg, invoke);
    AnswerKeepsId(data, Field(data, "id"), reg, invoke);
  }

  /** Without a truthy `id`, the `_run_test_id` of the `kwargs` dict takes its place
      in the response when it is truthy. */
  lemma WsEchoesRunTestId(msg: Incoming, parse: string -> Option<Json>, data: Json, reg: Registry,
                          invoke: (string, Json, Json) -> Outcome)
    requires Decoded(msg, parse, data)
    requires !Truthy(Field(data, "id"))
    requires FieldOr(data, "kwargs", JObj([])).JObj?
    requires Truthy(Field(FieldOr(data, "kwargs", JObj([])), RUN_ID_PARAM))
    ensures Dict.Get(WsHandleMessage(msg, parse, reg, invoke).response.fields, "id") ==
              Some(Field(FieldOr(data, "kwargs", JObj([])), RUN_ID_PARAM))
  {
    var mid := Field(FieldOr(data, "kwargs", JObj([])), RUN_ID_PARAM);
    assert WsMessageId(data) == Found(mid);
    WsFoundAnswers(msg, parse, data, reg, invoke);
    AnswerKeepsId(data, mid, reg, invoke);
  }

  /** Once the id lookup succeeds, the handler's answer is `Answer`'s. */
  lemma WsFoundAnswers(msg: Incoming, parse: string -> Option<Json>, data: Json, reg: Registry,
                       invoke: (string, Json, Json) -> Outcome)
    requires Decoded(msg, parse, data) && WsMessageId(data).Found?
    ensures WsHandleMessage(msg, parse, reg, invoke) == Answer(data, WsMessageId(data).id, reg, invoke)
  {
  }

  /** A truthy id ends up under `id`, whichever way the function lookup goes. */
  lemma AnswerKeepsId(data: Json, mid: Json, reg: Registry, invoke: (string, Json, Json) -> Outcome)
    requires data.JObj? && Truthy(mid)
    ensures Dict.Get(Answer(data, mid, reg, invoke).response.fields, "id") == Some(mid)
  {
    var route := RouteOf(Field(data, "function"), reg);
    if !route.Unhashable? {
      var h := Respond(IdBase(mid), route, ArgsOf(data), KwargsOf(data), reg, invoke);
      assert Answer(data, mid, reg, invoke) == h;
      assert "id" !in ["status", "result", "error", "methods"];
      assert Dict.Get(h.response.fields, "id") == Dict.Get(IdBase(mid), "id");
    }
  }

  /** When neither source yields a truthy id and the requested function is
      hashable, the response carries no `id` key at all. */
  lemma WsOmitsFalsyId(msg: Incoming, parse: string -> Option<Json>, data: Json, reg: Registry,
                       invoke: (string, Json, Json) -> Outcome)
    requires Decoded(msg, parse, data)
    requires WsMessageId(data).Found? && !Truthy(WsMessageId(data).id)
    requires Hashable(Field(data, "function"))
    ensures Dict.Get(WsHandleMessage(msg, parse, reg, invoke).response.fields, "id").None?
  {
    var mid := WsMessageId(data).id;
    var route := RouteOf(Field(data, "function"), reg);
    assert !route.Unhashable?;
    assert WsHandleMessage(msg, parse, reg, invoke) ==
             Respond(IdBase(mid), route, ArgsOf(data), KwargsOf(data), reg, invoke);
    assert Dict.Get(IdBase(mid), "id").None?;
  }

  /** `list_available_methods` answers with the listing of the whole table and calls nothing. */
  lemma WsIntrospection(msg: Incoming, parse: string -> Option<Json>, data: Json, reg: Registry,
                        invoke: (string, Json, Json) -> Outcome)
    requires Decoded(msg, parse, data) && WsMessageId(data).Found?
    requires Field(data, "function") == JStr(LIST_METHODS)
    ensures var h := WsHandleMessage(msg, parse, reg, invoke);
      && Status(h.response) == JStr("success")
      && Dict.Get(h.response.fields, "methods") == Some(JArr(MethodList(reg)))
      && h.calls == []
  {
  }

  /** A registered name is called exactly once with the decoded `args` and `kwargs`;
      its return value becomes `result`, or what it raised becomes `error`. */
  lemma WsKnownFunction(msg: Incoming, parse: string -> Option<Json>, data: Json, reg: Registry,
                        invoke: (string, Json, Json) -> Outcome, name: string)
    requires Decoded(msg, parse, data) && WsMessageId(data).Found?
    requires Field(data, "function") == JStr(name)
    requires Registered(reg, name) && name != LIST_METHODS
    ensures var h := WsHandleMessage(msg, parse, reg, invoke);
      var out := invoke(name, ArgsOf(data), KwargsOf(data));
      && h.calls == [Call(name, ArgsOf(data), KwargsOf(data))]
      && (out.Returned? ==> Status(h.response) == JStr("success") &&
                            Dict.Get(h.response.fields, "result") == Some(out.value))
      && (out.Raised? ==> Status(h.response) == JStr("error") &&
                          Dict.Get(h.response.fields, "error") == Some(JStr(out.message)))
  {
  }

  /** An unregistered hashable name is reported as unknown, with its `str()`, and nothing is called. */
  lemma WsUnknownFunction(msg: Incoming, parse: string -> Option<Json>, data: Json, reg: Registry,
                          invoke: (string, Json, Json) -> Outcome)
    requires Decoded(msg, parse, data) && WsMessageId(data).Found?
    requires Hashable(Field(data, "function"))
    requires Field(data, "function") != JStr(LIST_METHODS)
    requires !(Field(data, "function").JStr? && Registered(reg, Field(data, "function").s))
    ensures var h := WsHandleMessage(msg, parse, reg, invoke);
      && Status(h.response) == JStr("error")
      && Dict.Get(h.response.fields, "error") == Some(JStr("Unknown function: " + PyStr(Field(data, "function"))))
      && h.calls == []
  {
  }

  /** A list or dict as the function name makes the membership test raise; the
      error response carries the id even when it is falsy. */
  lemma WsUnhashableFunction(msg: Incoming, parse: string -> Option<Json>, data: Json, reg: Registry,
                             invoke: (string, Json, Json) -> Outcome)
    requires Decoded(msg, parse, data) && WsMessageId(data).Found?
    requires !Hashable(Field(data, "function"))
    ensures var h := WsHandleMessage(msg, parse, reg, invoke);
      && h.response == ErrorResponse(UnhashableError(Field(data, "function")), WsMessageId(data).id)
      && h.calls == []
  {
  }

  /** A capability is called if and only if the message decodes to a dict whose
      id lookup succeeds and whose `function` is a registered name other than
      the introspection command. */
  lemma WsCallsIff(msg: Incoming, parse: string -> Option<Json>, reg: Registry,
                   invoke: (string, Json, Json) -> Outcome)
    ensures |WsHandleMessage(msg, parse, reg, invoke).calls| == 1 <==>
      exists data :: Decoded(msg, parse, data) && WsMessageId(data).Found? &&
        Field(data, "function").JStr? && Registered(reg, Field(data, "function").s) &&
        Field(data, "function").s != LIST_METHODS
  {
    if |WsHandleMessage(msg, parse, reg, invoke).calls| == 1 {
      WsCallWitness(msg, parse, reg, invoke);
    }
    if exists data :: Decoded(msg, parse, data) && WsMessageId(data).Found? &&
        Field(data, "function").JStr? && Registered(reg, Field(data, "function").s) &&
        Field(data, "function").s != LIST_METHODS {
      var data :| Decoded(msg, parse, data) && WsMessageId(data).Found? &&
        Field(data, "function").JStr? && Registered(reg, Field(data, "function").s) &&
        Field(data, "function").s != LIST_METHODS;
      WsKnownFunction(msg, parse, data, reg, invoke, Field(data, "function").s);
    }
  }

  /** A call is only made for a decoded dict naming a registered capability. */
  lemma WsCallWitness(msg: Incoming, parse: string -> Option<Json>, reg: Registry,
                      invoke: (string, Json, Json) -> Outcome)
    requires |WsHandleMessage(msg, parse, reg, invoke).calls| == 1
    ensures !Blank(msg) && parse(msg.text).Some?
    ensures var data := parse(msg.text).value;
      Decoded(msg, parse, data) && WsMessageId(data).Found? &&
      Field(data, "function").JStr? && Registered(reg, Field(data, "function").s) &&
      Field(data, "function").s != LIST_METHODS
  {
    var data := parse(msg.text).value;
    var mid := WsMessageId(data).id;
    var route := RouteOf(Field(data, "function"), reg);
    assert WsHandleMessage(msg, parse, reg, invoke) ==
             Respond(IdBase(mid), route, ArgsOf(data), KwargsOf(data), reg, invoke);
    assert route.Known?;
  }
}
