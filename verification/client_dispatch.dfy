/** `handle_message` of the older standalone client. It differs from the
    websocket handler in three ways: the correlation id comes only from
    `kwargs["_run_test_id"]`, every success or error update writes `"id"` as
    well, and `message_id` is first assigned inside the `try` block, so an
    exception raised before that assignment makes the `except` handlers
    themselves fail with `UnboundLocalError` and no response is produced. */
module ClientDispatch {
  import opened Common
  import opened Strings
  import opened Json
  import opened Registry
  import opened Dispatch
  import Dict

  const INVALID_JSON_ERROR := "Invalid JSON received"

  /** `data.get("kwargs", {})` when it is a dict: the receiver of `.get("_run_test_id")`. */
  predicate KwargsIsDict(data: Json)
    requires data.JObj?
  {
    FieldOr(data, "kwargs", JObj([])).JObj?
  }

  /** `data.get("kwargs", {}).get("_run_test_id")`. */
  function ClientMessageId(data: Json): Json
    requires data.JObj? && KwargsIsDict(data)
  {
    Field(FieldOr(data, "kwargs", JObj([])), RUN_ID_PARAM)
  }

  /** `{"id": message_id} if message_id is not None else {}`. */
  function ClientIdBase(mid: Json): (d: Dict.Dict<string, Json>)
    ensures Dict.Get(d, "id") == if mid != JNull then Some(mid) else None
  {
    if mid != JNull then Dict.Put([], "id", mid) else []
  }

  /** The part of the handler after `message_id` is bound: route, call, and
      `response_dict.update({..., "id": message_id})`. */
  function ClientRespond(data: Json, mid: Json, reg: Registry,
                         invoke: (string, Json, Json) -> Outcome): (h: Handled)
    requires data.JObj?
    ensures WellFormedResponse(h.response)
    ensures Dict.Get(h.response.fields, "id") == Some(mid)
    ensures |h.calls| <= 1
    ensures forall c :: c in h.calls ==> Registered(reg, c.name) && c.name != LIST_METHODS
  {
    var route := RouteOf(Field(data, "function"), reg);
    if route.Unhashable? then Handled(ErrorResponse(route.message, mid), [])
    else WithId(Respond(ClientIdBase(mid), route, ArgsOf(data), KwargsOf(data), reg, invoke), mid)
  }

  /** The `"id": message_id` entry every client update writes; the status keys
      and the calls are left as they were. */
  function WithId(h: Handled, mid: Json): (r: Handled)
    requires h.response.JObj?
    ensures r.response.JObj? && r.calls == h.calls
    ensures Dict.Get(r.response.fields, "id") == Some(mid)
    ensures Status(r.response) == Status(h.response)
    ensures Dict.Get(r.response.fields, "methods") == Dict.Get(h.response.fields, "methods")
    ensures Dict.Get(r.response.fields, "result") == Dict.Get(h.response.fields, "result")
    ensures Dict.Get(r.response.fields, "error") == Dict.Get(h.response.fields, "error")
  {
    assert "status" != "id" && "methods" != "id" && "error" != "id" && "result" != "id";
    Handled(JObj(Dict.Put(h.response.fields, "id", mid)), h.calls)
  }

  /** `client.handle_message` as written: `None` when the call raises
      `UnboundLocalError` out of its `except` handler, which happens exactly
      when the failure comes before `message_id` is assigned. */
  function ClientHandleMessage(msg: Incoming, parse: string -> Option<Json>, reg: Registry,
                               invoke: (string, Json, Json) -> Outcome): (r: Option<Handled>)
    ensures r.Some? ==> WellFormedResponse(r.value.response)
    ensures r.Some? ==> |r.value.calls| <= 1
  {
    if Blank(msg) then None
    else match parse(msg.text)
      case None => None
      case Some(data) =>
        if !data.JObj? || !KwargsIsDict(data) then None
        else Some(ClientRespond(data, ClientMessageId(data), reg, invoke))
  }

  /** The handler with `message_id = None` bound before the `try`, as the
      websocket handler does: the early failures become error responses. */
  function ClientHandleMessageFixed(msg: Incoming, parse: string -> Option<Json>, reg: Registry,
                                    invoke: (string, Json, Json) -> Outcome): (h: Handled)
    ensures WellFormedResponse(h.response)
    ensures Dict.Get(h.response.fields, "id").Some?
    ensures |h.calls| <= 1
  {
    if Blank(msg) then Handled(ErrorResponse(EMPTY_MESSAGE_ERROR, JNull), [])
    else match parse(msg.text)
      case None => Handled(ErrorResponse(INVALID_JSON_ERROR, JNull), [])
      case Some(data) =>
        if !data.JObj? then Handled(ErrorResponse(NoGetError(data), JNull), [])
        else if !KwargsIsDict(data) then
          Handled(ErrorResponse(NoGetError(FieldOr(data, "kwargs", JObj([]))), JNull), [])
        else ClientRespond(data, ClientMessageId(data), reg, invoke)
  }

  /** The as-written handler answers if and only if the message decodes to a
      dict whose `kwargs` (if any) is a dict. */
  lemma ClientRespondsIff(msg: Incoming, parse: string -> Option<Json>, reg: Registry,
                          invoke: (string, Json, Json) -> Outcome)
    ensures ClientHandleMessage(msg, parse, reg, invoke).Some? <==>
              exists data :: Decoded(msg, parse, data) && KwargsIsDict(data)
  {
    if ClientHandleMessage(msg, parse, reg, invoke).Some? {
      var data := parse(msg.text).value;
      assert Decoded(msg, parse, data) && KwargsIsDict(data);
    }
  }

  /** Every response the client sends carries `id`, and it is the `_run_test_id`
      of `kwargs` (null when absent); the top-level `id` is never consulted. */
  lemma ClientIdIsRunTestId(msg: Incoming, parse: string -> Option<Json>, data: Json, reg: Registry,
                            invoke: (string, Json, Json) -> Outcome)
    requires Decoded(msg, parse, data) && KwargsIsDict(data)
    ensures ClientHandleMessage(msg, parse, reg, invoke).Some?
    ensures Dict.Get(ClientHandleMessage(msg, parse, reg, invoke).value.response.fields, "id") ==
              Some(Field(FieldOr(data, "kwargs", JObj([])), RUN_ID_PARAM))
  {
  }

  /** The correction changes nothing where the as-written handler answers. */
  lemma ClientFixedAgrees(msg: Incoming, parse: string -> Option<Json>, reg: Registry,
                          invoke: (string, Json, Json) -> Outcome)
    requires ClientHandleMessage(msg, parse, reg, invoke).Some?
    ensures ClientHandleMessageFixed(msg, parse, reg, invoke) == ClientHandleMessage(msg, parse, reg, invoke).value
  {
  }

  /** The input that shows the defect: an empty text frame gets no response at
      all from the as-written handler, while the intended one reports the error. */
  lemma ClientEmptyMessageUnanswered(parse: string -> Option<Json>, reg: Registry,
                                     invoke: (string, Json, Json) -> Outcome)
    ensures ClientHandleMessage(Text(""), parse, reg, invoke).None?
    ensures ClientHandleMessageFixed(Text(""), parse, reg, invoke).response == ErrorResponse(EMPTY_MESSAGE_ERROR, JNull)
  {
    assert Strip("") == [];
  }

  /** A capability is called exactly when the message decodes to a dict with a
      dict `kwargs` and a registered, non-reserved function name; the call gets
      the decoded `args` and `kwargs`. */
  lemma ClientCallsIff(msg: Incoming, parse: string -> Option<Json>, reg: Registry,
                       invoke: (string, Json, Json) -> Outcome)
    ensures var r := ClientHandleMessage(msg, parse, reg, invoke);
      r.Some? && |r.value.calls| == 1 <==>
        exists data :: Decoded(msg, parse, data) && KwargsIsDict(data) &&
          Field(data, "function").JStr? && Registered(reg, Field(data, "function").s) &&
          Field(data, "function").s != LIST_METHODS
  {
    var r := ClientHandleMessage(msg, parse, reg, invoke);
    if r.Some? && |r.value.calls| == 1 {
      var data := parse(msg.text).value;
      assert Decoded(msg, parse, data) && KwargsIsDict(data);
      assert RouteOf(Field(data, "function"), reg).Known?;
    }
  }

  /** A registered name is called with the decoded `args` and `kwargs`, and its
      outcome becomes `result` or `error`. */
  lemma ClientKnownFunction(msg: Incoming, parse: string -> Option<Json>, data: Json, reg: Registry,
                            invoke: (string, Json, Json) -> Outcome, name: string)
    requires Decoded(msg, parse, data) && KwargsIsDict(data)
    requires Field(data, "function") == JStr(name)
    requires Registered(reg, name) && name != LIST_METHODS
    ensures ClientHandleMessage(msg, parse, reg, invoke).Some?
    ensures var h := ClientHandleMessage(msg, parse, reg, invoke).value;
      var out := invoke(name, ArgsOf(data), KwargsOf(data));
      && h.calls == [Call(name, ArgsOf(data), KwargsOf(data))]
      && (out.Returned? ==> Status(h.response) == JStr("success") &&
                            Dict.Get(h.response.fields, "result") == Some(out.value))
      && (out.Raised? ==> Status(h.response) == JStr("error") &&
                          Dict.Get(h.response.fields, "error") == Some(JStr(out.message)))
  {
    assert "result" != "id" && "error" != "id";
  }

  /** `list_available_methods` answers success with the listing of the table
      (for the client, `ClientTable`), under the message id, and calls nothing. */
  lemma ClientIntrospection(msg: Incoming, parse: string -> Option<Json>, data: Json, reg: Registry,
                            invoke: (string, Json, Json) -> Outcome)
    requires Decoded(msg, parse, data) && KwargsIsDict(data)
    requires Field(data, "function") == JStr(LIST_METHODS)
    ensures ClientHandleMessage(msg, parse, reg, invoke).Some?
    ensures var h := ClientHandleMessage(msg, parse, reg, invoke).value;
      && Status(h.response) == JStr("success")
      && Dict.Get(h.response.fields, "methods") == Some(JArr(MethodList(reg)))
      && Dict.Get(h.response.fields, "id") == Some(ClientMessageId(data))
      && h.calls == []
  {
    assert ClientHandleMessage(msg, parse, reg, invoke) == Some(ClientRespond(data, ClientMessageId(data), reg, invoke));
  }

  /** An unregistered hashable name is reported as `Unknown function: <str(name)>`
      under the message id, and nothing is called. */
  lemma ClientUnknownFunction(msg: Incoming, parse: string -> Option<Json>, data: Json, reg: Registry,
                              invoke: (string, Json, Json) -> Outcome)
    requires Decoded(msg, parse, data) && KwargsIsDict(data)
    requires Hashable(Field(data, "function"))
    requires Field(data, "function") != JStr(LIST_METHODS)
    requires !(Field(data, "function").JStr? && Registered(reg, Field(data, "function").s))
    ensures ClientHandleMessage(msg, parse, reg, invoke).Some?
    ensures var h := ClientHandleMessage(msg, parse, reg, invoke).value;
      && Status(h.response) == JStr("error")
      && Dict.Get(h.response.fields, "error") == Some(JStr("Unknown function: " + PyStr(Field(data, "function"))))
      && Dict.Get(h.response.fields, "id") == Some(ClientMessageId(data))
      && h.calls == []
  {
    assert ClientHandleMessage(msg, parse, reg, invoke) == Some(ClientRespond(data, ClientMessageId(data), reg, invoke));
  }

  /** A list or dict as the function name makes `function_name in FUNCTION_MAP`
      raise; `message_id` is bound by then, so the generic handler answers with
      the `TypeError` text under it, and nothing is called. */
  lemma ClientUnhashableFunction(msg: Incoming, parse: string -> Option<Json>, data: Json, reg: Registry,
                                 invoke: (string, Json, Json) -> Outcome)
    requires Decoded(msg, parse, data) && KwargsIsDict(data)
    requires !Hashable(Field(data, "function"))
    ensures ClientHandleMessage(msg, parse, reg, invoke).Some?
    ensures var h := ClientHandleMessage(msg, parse, reg, invoke).value;
      && h.response == ErrorResponse(UnhashableError(Field(data, "function")), ClientMessageId(data))
      && h.calls == []
  {
    assert ClientHandleMessage(msg, parse, reg, invoke) == Some(ClientRespond(data, ClientMessageId(data), reg, invoke));
  }
}
