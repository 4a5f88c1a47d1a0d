/** Construction of the backend websocket address: `_build_uri` and the scheme
    check of `main_connect_ws`, and the older client's plain concatenation. */
module Endpoint {
  import opened Common
  import opened Strings

  const DEFAULT_BASE := "wss://beta.barkoagent.com/ws/"
  const DEFAULT_CLIENT_ID := "default_client_id"

  predicate IsSlash(c: char) { c == '/' }

  /** The check both entry points apply before connecting. */
  predicate HasWsScheme(uri: string) {
    StartsWith(uri, "ws://") || StartsWith(uri, "wss://")
  }

  /** `r` is `base` without its trailing slashes, then exactly one `/` at index `k`,
      then `id` without its leading slashes. */
  ghost predicate JoinedAt(r: string, k: nat, base: string, id: string) {
    && k < |r| && k <= |base|
    && r[..k] == base[..k]
    && (forall i :: k <= i < |base| ==> base[i] == '/')
    && (k == 0 || base[k - 1] != '/')
    && r[k] == '/'
    && |r| - (k + 1) <= |id|
    && r[k + 1..] == id[|id| - (|r| - (k + 1))..]
    && (forall i :: 0 <= i < |id| - (|r| - (k + 1)) ==> id[i] == '/')
    && (k + 1 == |r| || r[k + 1] != '/')
  }

  /** `_build_uri(base_or_id, default_base)`: a full `ws://`/`wss://` URI is used
      verbatim; anything else is a client id joined to the base with one slash. */
  function BuildUri(baseOrId: string, defaultBase: string): (r: string)
    ensures HasWsScheme(baseOrId) ==> r == baseOrId
    ensures !HasWsScheme(baseOrId) ==>
              exists k :: 0 <= k <= |defaultBase| && JoinedAt(r, k, defaultBase, baseOrId)
  {
    if HasWsScheme(baseOrId) then baseOrId
    else
      var base := TrimRight(defaultBase, IsSlash);
      var clientId := TrimLeft(baseOrId, IsSlash);
      var r := base + "/" + clientId;
      assert JoinedAt(r, |base|, defaultBase, baseOrId) by {
        assert r[..|base|] == base == defaultBase[..|base|];
        assert r[|base| + 1..] == clientId;
      }
      r
  }

  /** `main_connect_ws`: read `BACKEND_WS_URI` and `DEFAULT_WS_BASE` (each `None` when
      unset), build the URI, and refuse to start (`None`) unless it has a websocket scheme. */
  function WsBackendUri(backendEnv: Option<string>, baseEnv: Option<string>): (r: Option<string>)
    ensures r.Some? ==> HasWsScheme(r.value)
    ensures r.Some? <==> HasWsScheme(BuildUri(backendEnv.GetOr(DEFAULT_CLIENT_ID), baseEnv.GetOr(DEFAULT_BASE)))
    ensures r.Some? ==> r.value == BuildUri(backendEnv.GetOr(DEFAULT_CLIENT_ID), baseEnv.GetOr(DEFAULT_BASE))
  {
    var full := BuildUri(backendEnv.GetOr(DEFAULT_CLIENT_ID), baseEnv.GetOr(DEFAULT_BASE));
    if HasWsScheme(full) then Some(full) else None
  }

  /** A full `ws://` or `wss://` address in `BACKEND_WS_URI` is connected to as
      it is, whatever the base. */
  lemma WsBackendUriVerbatim(uri: string, baseEnv: Option<string>)
    requires HasWsScheme(uri)
    ensures WsBackendUri(Some(uri), baseEnv) == Some(uri)
  {
  }

  /** With both variables unset the agent connects to the default base joined
      with the default client id. */
  lemma WsBackendUriDefaults()
    ensures WsBackendUri(None, None) == Some(DEFAULT_BASE[..|DEFAULT_BASE| - 1] + "/" + DEFAULT_CLIENT_ID)
  {
    DefaultBaseAlwaysAccepted(None);
    var b := TrimRight(DEFAULT_BASE, IsSlash);
    assert DEFAULT_BASE[|DEFAULT_BASE| - 1] == '/' && DEFAULT_BASE[|DEFAULT_BASE| - 2] != '/';
    assert |b| == |DEFAULT_BASE| - 1;
    assert TrimLeft(DEFAULT_CLIENT_ID, IsSlash) == DEFAULT_CLIENT_ID;
  }

  /** A base that starts with a websocket scheme and has something other than
      slashes after it accepts every client id. */
  lemma {:induction false} SchemedBaseAccepts(id: string, base: string, scheme: string, j: nat)
    requires scheme == "ws://" || scheme == "wss://"
    requires StartsWith(base, scheme)
    requires |scheme| <= j < |base| && base[j] != '/'
    ensures HasWsScheme(BuildUri(id, base))
  {
    if !HasWsScheme(id) {
      var b := TrimRight(base, IsSlash);
      assert j < |b|;
      assert b[..|scheme|] == base[..|scheme|];
      JoinKeepsPrefix(b, TrimLeft(id, IsSlash), scheme);
      assert StartsWith(BuildUri(id, base), scheme);
    }
  }

  lemma JoinKeepsPrefix(b: string, c: string, p: string)
    requires StartsWith(b, p)
    ensures StartsWith(b + "/" + c, p)
  {
    assert (b + "/" + c)[..|p|] == b[..|p|];
  }

  /** With `DEFAULT_WS_BASE` unset, every `BACKEND_WS_URI` value passes the check. */
  lemma DefaultBaseAlwaysAccepted(backendEnv: Option<string>)
    ensures WsBackendUri(backendEnv, None).Some?
  {
    SchemedBaseAccepts(backendEnv.GetOr(DEFAULT_CLIENT_ID), DEFAULT_BASE, "wss://", 6);
  }

  /** A client id joined to a base that does not begin with `ws` is refused. */
  lemma NonWsBaseRefused(id: string, base: string)
    requires !HasWsScheme(id)
    requires !StartsWith(base, "ws")
    ensures !HasWsScheme(BuildUri(id, base))
  {
    var b := TrimRight(base, IsSlash);
    if |b| >= 2 {
      assert b[..2] == base[..2];
    }
    JoinWithoutWsPrefix(b, TrimLeft(id, IsSlash));
  }

  lemma JoinWithoutWsPrefix(b: string, c: string)
    requires |b| < 2 || b[..2] != "ws"
    ensures !HasWsScheme(b + "/" + c)
  {
    var r := b + "/" + c;
    assert |r| >= 2 ==> r[..2] != "ws" by {
      if |b| >= 2 {
        assert r[..2] == b[..2];
      } else {
        assert r[|b|] == '/';
      }
    }
  }

  /** `client.main`: the fixed prefix plus `BACKEND_WS_URI` (default when unset),
      refused (`None`) unless the result has a websocket scheme. */
  function ClientBackendUri(backendEnv: Option<string>): (r: Option<string>)
    ensures r == Some(DEFAULT_BASE + backendEnv.GetOr(DEFAULT_CLIENT_ID))
  {
    var uri := DEFAULT_BASE + backendEnv.GetOr(DEFAULT_CLIENT_ID);
    assert uri[..6] == "wss://";
    if HasWsScheme(uri) then Some(uri) else None
  }
}
