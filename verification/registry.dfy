/** The capability registries (`FUNCTION_MAP`) of the two message handlers and the
    method listing answered to `list_available_methods`. A capability's parameter
    names come from its Python signature; its docstring (`__doc__`) is foreign text,
    supplied as `docOf`. */
module Registry {
  import opened Common
  import opened Strings
  import opened Json
  import Dict

  /** The parameter through which every capability receives the run id. */
  const RUN_ID_PARAM := "_run_test_id"
  /** The reserved introspection command. */
  const LIST_METHODS := "list_available_methods"

  datatype Capability = Capability(name: string, params: seq<string>, doc: Option<string>)

  type Registry = seq<Capability>

  function Names(reg: Registry): (ns: seq<string>)
    ensures |ns| == |reg|
    ensures forall i :: 0 <= i < |reg| ==> ns[i] == reg[i].name
  {
    seq(|reg|, i requires 0 <= i < |reg| => reg[i].name)
  }

  /** `name in FUNCTION_MAP`. */
  predicate Registered(reg: Registry, name: string) {
    name in Names(reg)
  }

  /** The websocket handler's table: the module's functions whose names do not
      start with `_`, in the order `inspect.getmembers` lists them. */
  function PublicMembers(members: seq<Capability>): (reg: Registry)
    ensures IsSubseq(reg, members)
    ensures forall c :: c in reg <==> c in members && !StartsWith(c.name, "_")
    decreases |members|
  {
    if |members| == 0 then []
    else
      var rest := PublicMembers(members[1..]);
      if StartsWith(members[0].name, "_") then
        SubseqDropPrefix(rest, members, 1);
        rest
      else
        SubseqCons(members[0], rest, members[1..]);
        assert [members[0]] + members[1..] == members;
        [members[0]] + rest
  }

  /** The argument names listed for a capability: its parameters without the run-id one. */
  function ArgNames(params: seq<string>): (args: seq<string>)
    ensures IsSubseq(args, params)
    ensures forall p :: p in args <==> p in params && p != RUN_ID_PARAM
    ensures |args| == |params| - multiset(params)[RUN_ID_PARAM]
    decreases |params|
  {
    if |params| == 0 then []
    else
      var rest := ArgNames(params[1..]);
      if params[0] == RUN_ID_PARAM then
        SubseqDropPrefix(rest, params, 1);
        assert params == [params[0]] + params[1..];
        rest
      else
        SubseqCons(params[0], rest, params[1..]);
        assert [params[0]] + params[1..] == params;
        [params[0]] + rest
  }

  function StrList(ss: seq<string>): (j: Json)
    ensures j.JArr? && |j.items| == |ss|
    ensures forall i :: 0 <= i < |ss| ==> j.items[i] == JStr(ss[i])
  {
    JArr(seq(|ss|, i requires 0 <= i < |ss| => JStr(ss[i])))
  }

  /** `{"name": ..., "args": [...], "doc": __doc__ or ""}`. */
  function Describe(c: Capability): (j: Json)
    ensures j.JObj? && Dict.Keys(j.fields) == ["name", "args", "doc"]
    ensures Dict.Get(j.fields, "name") == Some(JStr(c.name))
    ensures Dict.Get(j.fields, "args") == Some(StrList(ArgNames(c.params)))
    ensures Dict.Get(j.fields, "doc") == Some(JStr(if c.doc.Some? then c.doc.value else ""))
  {
    var d0: Dict.Dict<string, Json> := [];
    var d1 := Dict.Put(d0, "name", JStr(c.name));
    var d2 := Dict.Put(d1, "args", StrList(ArgNames(c.params)));
    var d3 := Dict.Put(d2, "doc", JStr(c.doc.GetOr("")));
    assert "args" != "name" && "doc" != "name" && "doc" != "args";
    assert d3 == [("name", JStr(c.name)), ("args", StrList(ArgNames(c.params))), ("doc", JStr(c.doc.GetOr("")))];
    JObj([("name", JStr(c.name)), ("args", StrList(ArgNames(c.params))), ("doc", JStr(c.doc.GetOr("")))])
  }

  /** The `methods` list: one description per registry entry, in table order. */
  function MethodList(reg: Registry): (ms: seq<Json>)
    ensures |ms| == |reg|
    ensures forall i :: 0 <= i < |reg| ==> ms[i] == Describe(reg[i])
  {
    seq(|reg|, i requires 0 <= i < |reg| => Describe(reg[i]))
  }

  function Cap(name: string, params: seq<string>, docOf: string -> Option<string>): Capability {
    Capability(name, params, docOf(name))
  }

  /** `client.FUNCTION_MAP`: eighteen capabilities in declaration order. */
  function ClientTable(docOf: string -> Option<string>): Registry {
    [ Cap("create_driver", [RUN_ID_PARAM], docOf),
      Cap("stop_driver", [RUN_ID_PARAM], docOf),
      Cap("maximize_window", [RUN_ID_PARAM], docOf),
      Cap("add_cookie", ["name", "value", RUN_ID_PARAM], docOf),
      Cap("navigate_to_url", ["url", RUN_ID_PARAM], docOf),
      Cap("send_keys", ["locator_type", "locator", "value", RUN_ID_PARAM], docOf),
      Cap("exists", ["locator_type", "locator", RUN_ID_PARAM], docOf),
      Cap("does_not_exist", ["locator_type", "locator", RUN_ID_PARAM], docOf),
      Cap("scroll_to_element", ["locator_type", "locator", RUN_ID_PARAM], docOf),
      Cap("click", ["locator_type", "locator", RUN_ID_PARAM], docOf),
      Cap("get_page_html", [RUN_ID_PARAM], docOf),
      Cap("return_current_url", [RUN_ID_PARAM], docOf),
      Cap("change_windows_tabs", [RUN_ID_PARAM], docOf),
      Cap("change_frame_by_id", ["frame_name", RUN_ID_PARAM], docOf),
      Cap("change_frame_by_locator", ["locator_type", "locator", RUN_ID_PARAM], docOf),
      Cap("change_frame_to_original", [RUN_ID_PARAM], docOf),
      Cap("double_click", ["locator_type", "locator", RUN_ID_PARAM], docOf),
      Cap("right_click", ["locator_type", "locator", RUN_ID_PARAM], docOf) ]
  }

  /** Every function `agent_func` defines, sorted by name as `inspect.getmembers`
      returns them. `log_function_definition(fn, *args, **kwargs)` lists its
      variadic parameters by their names. */
  function AgentFuncMembers(docOf: string -> Option<string>): seq<Capability> {
    [ Cap("add_cookie", ["name", "value", RUN_ID_PARAM], docOf),
      Cap("change_frame_by_id", ["frame_name", RUN_ID_PARAM], docOf),
      Cap("change_frame_by_locator", ["locator_type", "locator", RUN_ID_PARAM], docOf),
      Cap("change_frame_to_original", [RUN_ID_PARAM], docOf),
      Cap("change_windows_tabs", [RUN_ID_PARAM], docOf),
      Cap("clean_html", ["html_content"], docOf),
      Cap("click", ["locator_type", "locator", RUN_ID_PARAM], docOf),
      Cap("create_driver", [RUN_ID_PARAM], docOf),
      Cap("does_not_exist", ["locator_type", "locator", RUN_ID_PARAM], docOf),
      Cap("double_click", ["locator_type", "locator", RUN_ID_PARAM], docOf),
      Cap("exists", ["locator_type", "locator", RUN_ID_PARAM], docOf),
      Cap("get_page_html", [RUN_ID_PARAM], docOf),
      Cap("log_function_definition", ["fn", "args", "kwargs"], docOf),
      Cap("maximize_window", [RUN_ID_PARAM], docOf),
      Cap("navigate_to_url", ["url", RUN_ID_PARAM], docOf),
      Cap("return_current_url", [RUN_ID_PARAM], docOf),
      Cap("right_click", ["locator_type", "locator", RUN_ID_PARAM], docOf),
      Cap("scroll_to_element", ["locator_type", "locator", RUN_ID_PARAM], docOf),
      Cap("send_keys", ["locator_type", "locator", "value", RUN_ID_PARAM], docOf),
      Cap("stop_all_drivers", [], docOf),
      Cap("stop_driver", [RUN_ID_PARAM], docOf) ]
  }

  /** `websocket_handler.FUNCTION_MAP`. */
  function WsTable(docOf: string -> Option<string>): Registry {
    PublicMembers(AgentFuncMembers(docOf))
  }

  /** The listing never offers the run-id parameter, and keeps every other one. */
  lemma ListingOmitsRunId(reg: Registry, i: nat)
    requires i < |reg|
    ensures MethodList(reg)[i].fields[1].0 == "args"
    ensures forall a: Json :: a in MethodList(reg)[i].fields[1].1.items <==>
              a.JStr? && a.s in reg[i].params && a.s != RUN_ID_PARAM
  {
    var args := ArgNames(reg[i].params);
    var items := StrList(args).items;
    forall a: Json | a in items ensures a.JStr? && a.s in args {
      var k :| 0 <= k < |items| && items[k] == a;
    }
    forall a: Json | a.JStr? && a.s in reg[i].params && a.s != RUN_ID_PARAM ensures a in items {
      var k :| 0 <= k < |args| && args[k] == a.s;
      assert items[k] == a;
    }
  }

  /** The client's introspection lists exactly its eighteen names, in table order. */
  lemma ClientListing(docOf: string -> Option<string>)
    ensures Names(ClientTable(docOf)) ==
      [ "create_driver", "stop_driver", "maximize_window", "add_cookie", "navigate_to_url",
        "send_keys", "exists", "does_not_exist", "scroll_to_element", "click", "get_page_html",
        "return_current_url", "change_windows_tabs", "change_frame_by_id",
        "change_frame_by_locator", "change_frame_to_original", "double_click", "right_click" ]
  {
  }

  /** No function of `agent_func` is private, so the websocket handler's table
      is the whole module. */
  lemma WsTableIsWholeModule(docOf: string -> Option<string>)
    ensures WsTable(docOf) == AgentFuncMembers(docOf)
  {
    var ms := AgentFuncMembers(docOf);
    forall i | 0 <= i < |ms| ensures !StartsWith(ms[i].name, "_") {
      StartsWithOneChar(ms[i].name, '_');
    }
    PublicAllKept(ms);
  }

  /** Besides the client's eighteen capabilities, the websocket handler also
      exposes the helpers `clean_html`, `log_function_definition` and
      `stop_all_drivers` to the remote peer. */
  lemma WsTableContents(docOf: string -> Option<string>)
    ensures |WsTable(docOf)| == 21
    ensures Registered(WsTable(docOf), "clean_html")
    ensures Registered(WsTable(docOf), "log_function_definition")
    ensures Registered(WsTable(docOf), "stop_all_drivers")
  {
    WsTableIsWholeModule(docOf);
    ModuleHelpers(docOf);
  }

  lemma ModuleHelpers(docOf: string -> Option<string>)
    ensures Registered(AgentFuncMembers(docOf), "clean_html")
    ensures Registered(AgentFuncMembers(docOf), "log_function_definition")
    ensures Registered(AgentFuncMembers(docOf), "stop_all_drivers")
  {
    var ns := Names(AgentFuncMembers(docOf));
    assert ns[5] == "clean_html" && ns[12] == "log_function_definition" && ns[19] == "stop_all_drivers";
  }

  lemma StartsWithOneChar(s: string, c: char)
    ensures StartsWith(s, [c]) <==> |s| > 0 && s[0] == c
  {
    if |s| > 0 && s[0] == c {
      assert s[..1] == [c];
    }
  }

  /** With no `_`-prefixed name the filter keeps the table as it is. */
  lemma {:induction false} PublicAllKept(members: seq<Capability>)
    requires forall i :: 0 <= i < |members| ==> !StartsWith(members[i].name, "_")
    ensures PublicMembers(members) == members
    decreases |members|
  {
    if |members| > 0 {
      PublicAllKept(members[1..]);
      assert [members[0]] + members[1..] == members;
    }
  }
}
