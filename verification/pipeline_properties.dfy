/** Properties of the entry points: stage ordering, error precedence around
    the deferred close, the wrapping of stage errors, and how the variants
    relate to each other. */
module PipelineProperties {
  import opened Wrappers
  import opened Strings
  import opened Http
  import opened Errors
  import opened Clients
  import opened Requests
  import opened Responses
  import opened Pipeline

  /** The call's request could be created and the transport answered it with
      `res`. */
  predicate Responded<V, D>(p: Params<V>, ord: IterationOrder, env: Env<V, D>, st: ClientState, res: Response)
    requires ValidOrder(p, ord)
  {
    && CreateRequest(p, env.lib, ord).Success?
    && env.transport(SelectClient(p.timeout, st).client, CreateRequest(p, env.lib, ord).value) == Success(res)
  }

  /** A close error never masks another error: running the same call with a
      failing close changes only a nil error, and only once a response has
      arrived (no response, no body to close). */
  lemma DoCloseNeverMasks<V, D>(p: Params<V>, hasDest: bool, dests: seq<Header>, ord: IterationOrder,
                                env: Env<V, D>, st: ClientState, c: string)
    requires ValidOrder(p, ord)
    ensures var clean := Do(p, hasDest, dests, ord, env.(closeErr := None), st);
      var failing := Do(p, hasDest, dests, ord, env.(closeErr := Some(c)), st);
      && failing.clients == clean.clients
      && failing.out.decoded == clean.out.decoded
      && failing.out.headerDests == clean.out.headerDests
      && failing.out.sent == clean.out.sent
      && failing.out.received == clean.out.received
      && failing.out.err == (if clean.out.err.None? && clean.out.received.Some? then Some(Cause(c)) else clean.out.err)
  {
  }

  /** The same for `DoWithStringResponse`; a close error after a successful
      read is returned together with the body text, which is kept. */
  lemma StringCloseNeverMasks<V, D>(p: Params<V>, ord: IterationOrder, env: Env<V, D>, st: ClientState, c: string)
    requires ValidOrder(p, ord)
    ensures var clean := DoWithStringResponse(p, ord, env.(closeErr := None), st);
      var failing := DoWithStringResponse(p, ord, env.(closeErr := Some(c)), st);
      && failing.clients == clean.clients
      && failing.out.result == clean.out.result
      && failing.out.sent == clean.out.sent
      && failing.out.received == clean.out.received
      && failing.out.err == (if clean.out.err.None? && clean.out.received.Some? then Some(Cause(c)) else clean.out.err)
  {
  }

  /** A failing status check is the call's error, whatever the close does; the
      header destinations stay untouched and nothing is decoded. */
  lemma DoStatusFailureStops<V, D>(p: Params<V>, hasDest: bool, dests: seq<Header>, ord: IterationOrder,
                                   env: Env<V, D>, st: ClientState, res: Response)
    requires ValidOrder(p, ord)
    requires Responded(p, ord, env, st, res)
    requires CheckResponseCode(res, p.expectedResponseCode).Some?
    ensures var r := Do(p, hasDest, dests, ord, env, st);
      && r.out.received == Some(res)
      && r.out.err == CheckResponseCode(res, p.expectedResponseCode)
      && r.out.headerDests == dests
      && r.out.decoded.None?
  {
  }

  /** More than one header destination fails after the status check with
      "too many arguments supplied", writing nothing and decoding nothing. */
  lemma DoTooManyHeaderDestinations<V, D>(p: Params<V>, hasDest: bool, dests: seq<Header>, ord: IterationOrder,
                                          env: Env<V, D>, st: ClientState, res: Response)
    requires ValidOrder(p, ord) && |dests| > 1
    requires Responded(p, ord, env, st, res)
    requires CheckResponseCode(res, p.expectedResponseCode).None?
    ensures var r := Do(p, hasDest, dests, ord, env, st);
      && r.out.err == Some(TooManyArguments)
      && HasText(r.out.err.value) && Text(r.out.err.value) == "too many arguments supplied"
      && r.out.headerDests == dests
      && r.out.decoded.None?
  {
  }

  /** Without a destination the body is never decoded: once the status check
      and the header copy pass and the close succeeds, the call succeeds,
      whatever the body holds. */
  lemma DoNilDestinationSucceeds<V, D>(p: Params<V>, dests: seq<Header>, ord: IterationOrder,
                                       env: Env<V, D>, st: ClientState, res: Response)
    requires ValidOrder(p, ord) && |dests| <= 1 && env.closeErr.None?
    requires Responded(p, ord, env, st, res)
    requires CheckResponseCode(res, p.expectedResponseCode).None?
    ensures var r := Do(p, false, dests, ord, env, st);
      r.out.err.None? && r.out.decoded.None?
  {
  }

  /** With one destination and a passing status check, the destination
      receives every response header, and keeps its other entries. */
  lemma DoCopiesHeaders<V, D>(p: Params<V>, hasDest: bool, dest: Header, ord: IterationOrder,
                              env: Env<V, D>, st: ClientState, res: Response)
    requires ValidOrder(p, ord)
    requires Responded(p, ord, env, st, res)
    requires IsSuccessCode(res.status) && (p.expectedResponseCode == 0 || p.expectedResponseCode == res.status)
    ensures var r := Do(p, hasDest, [dest], ord, env, st);
      && |r.out.headerDests| == 1
      && r.out.headerDests[0].Keys == dest.Keys + res.header.Keys
      && (forall k :: k in res.header ==> r.out.headerDests[0][k] == res.header[k])
      && (forall k :: k in dest && k !in res.header ==> r.out.headerDests[0][k] == dest[k])
  {
  }

  /** `Do` wraps `createRequest`'s error although `createRequest` already
      wrapped the `http.NewRequest` error with the same words, so the text
      carries the prefix twice. */
  lemma DoNewRequestFailureDoublePrefix<V, D>(p: Params<V>, hasDest: bool, dests: seq<Header>, ord: IterationOrder,
                                              env: Env<V, D>, st: ClientState)
    requires ValidOrder(p, ord)
    requires ConvertToReader(p.body, env.lib.marshal).Success?
    requires env.lib.newRequest(p.httpMethod, p.url).Failure?
    ensures var r := Do(p, hasDest, dests, ord, env, st);
      && r.out.err.Some? && HasText(r.out.err.value)
      && Text(r.out.err.value) ==
           CreateRequestContext + ": " + CreateRequestContext + ": " + env.lib.newRequest(p.httpMethod, p.url).error
      && r.clients == st && r.out.sent.None?
  {
    var m := env.lib.newRequest(p.httpMethod, p.url).error;
    var e := Wrapped(CreateRequestContext, Wrapped(CreateRequestContext, Cause(m)));
    assert Do(p, hasDest, dests, ord, env, st).out.err == Some(e);
    assert Text(e.cause) == CreateRequestContext + ": " + m;
    assert Text(e) == CreateRequestContext + ": " + (CreateRequestContext + ": " + m);
  }

  /** A body that cannot be encoded fails `Do` before anything is sent, with
      both prefixes in its text. */
  lemma DoBodyEncodingFailureText<V, D>(p: Params<V>, hasDest: bool, dests: seq<Header>, ord: IterationOrder,
                                        env: Env<V, D>, st: ClientState)
    requires ValidOrder(p, ord)
    requires p.body.Json? && env.lib.marshal(p.body.value).Failure?
    ensures var r := Do(p, hasDest, dests, ord, env, st);
      && r.out.err.Some? && HasText(r.out.err.value)
      && Text(r.out.err.value) ==
           CreateRequestContext + ": " + EncodeBodyContext + ": " + env.lib.marshal(p.body.value).error
      && r.clients == st && r.out.sent.None?
  {
    var m := env.lib.marshal(p.body.value).error;
    var e := Wrapped(CreateRequestContext, Wrapped(EncodeBodyContext, Cause(m)));
    assert Do(p, hasDest, dests, ord, env, st).out.err == Some(e);
    assert Text(e.cause) == EncodeBodyContext + ": " + m;
    assert Text(e) == CreateRequestContext + ": " + (EncodeBodyContext + ": " + m);
  }

  /** `DoWithStringResponse` returns `createRequest`'s error as it is: one
      prefix, where `Do` has two. */
  lemma StringNewRequestFailureSinglePrefix<V, D>(p: Params<V>, ord: IterationOrder, env: Env<V, D>, st: ClientState)
    requires ValidOrder(p, ord)
    requires ConvertToReader(p.body, env.lib.marshal).Success?
    requires env.lib.newRequest(p.httpMethod, p.url).Failure?
    ensures var r := DoWithStringResponse(p, ord, env, st);
      && r.out.err.Some? && HasText(r.out.err.value)
      && Text(r.out.err.value) == CreateRequestContext + ": " + env.lib.newRequest(p.httpMethod, p.url).error
      && r.out.result == ""
  {
  }

  /** A send failure in `Do` carries the "failed to send request" prefix; the
      header destinations stay untouched and no response is closed. */
  lemma DoSendFailureText<V, D>(p: Params<V>, hasDest: bool, dests: seq<Header>, ord: IterationOrder,
                                env: Env<V, D>, st: ClientState)
    requires ValidOrder(p, ord)
    requires CreateRequest(p, env.lib, ord).Success?
    requires env.transport(SelectClient(p.timeout, st).client, CreateRequest(p, env.lib, ord).value).Failure?
    ensures var r := Do(p, hasDest, dests, ord, env, st);
      var m := env.transport(SelectClient(p.timeout, st).client, CreateRequest(p, env.lib, ord).value).error;
      && r.out.err.Some? && HasText(r.out.err.value)
      && Text(r.out.err.value) == SendContext + ": " + m
      && r.out.headerDests == dests
      && r.out.received.None?
  {
  }

  /** `DoWithCustomClient` is `Do` without header destinations, run with the
      caller's client in place of the selected one. */
  lemma CustomClientIsDoWithoutHeaders<V, D>(p: Params<V>, hasDest: bool, ord: IterationOrder,
                                             env: Env<V, D>, st: ClientState)
    requires ValidOrder(p, ord)
    ensures DoWithCustomClient(p, hasDest, SelectClient(p.timeout, st).client, ord, env) ==
      Do(p, hasDest, [], ord, env, st).out
  {
  }

  /** `DoWithCustomClient` does not look at `Timeout`. */
  lemma CustomClientIgnoresTimeout<V, D>(p: Params<V>, hasDest: bool, client: Client, ord: IterationOrder,
                                         env: Env<V, D>, t: int)
    requires ValidOrder(p, ord)
    ensures ValidOrder(p.(timeout := t), ord)
    ensures DoWithCustomClient(p.(timeout := t), hasDest, client, ord, env) == DoWithCustomClient(p, hasDest, client, ord, env)
  {
    assert CreateRequest(p.(timeout := t), env.lib, ord) == CreateRequest(p, env.lib, ord);
  }

  /** `Post` sends a POST whose payload is the JSON encoding of the value
      followed by a newline, with the default JSON headers; `Get` sends a GET
      without a payload. */
  lemma PostSendsEncodedBody<V, D>(url: string, v: V, hasDest: bool, env: Env<V, D>, st: ClientState)
    requires env.lib.marshal(v).Success?
    requires env.lib.newRequest("POST", url).Success?
    ensures var r := Post(url, Json(v), hasDest, env, st);
      && r.out.sent.Some?
      && r.out.sent.value.httpMethod == "POST"
      && r.out.sent.value.body == Some(env.lib.marshal(v).value + [Newline])
      && r.out.sent.value.header == DefaultHeader(env.lib.canonicalKey)
      && r.out.sent.value.url == env.lib.newRequest("POST", url).value
  {
    var p: Params<V> := PostParams(url, Json(v));
    var req := CreateRequest(p, env.lib, NoOrder).value;
    assert req.header == SetAll(DefaultHeader(env.lib.canonicalKey), [], map[], env.lib.canonicalKey);
  }

  lemma GetSendsNoBody<V, D>(url: string, hasDest: bool, env: Env<V, D>, st: ClientState)
    requires env.lib.newRequest("GET", url).Success?
    ensures var r := Get(url, hasDest, env, st);
      && r.out.sent.Some?
      && r.out.sent.value.httpMethod == "GET"
      && r.out.sent.value.body.None?
      && r.out.sent.value.header == DefaultHeader(env.lib.canonicalKey)
  {
    var p: Params<V> := GetParams(url);
    var req := CreateRequest(p, env.lib, NoOrder).value;
    assert req.header == SetAll(DefaultHeader(env.lib.canonicalKey), [], map[], env.lib.canonicalKey);
  }

  // ---------------------------------------------------------------------
  // Concrete scenarios
  // ---------------------------------------------------------------------

  /** Expected 200, got 201: the call fails with exactly the text
      "expected response code 200 but got 201". */
  lemma ScenarioWrongResponseCode<V, D>(p: Params<V>, ord: IterationOrder, env: Env<V, D>, st: ClientState, res: Response)
    requires ValidOrder(p, ord) && p.expectedResponseCode == 200
    requires Responded(p, ord, env, st, res) && res.status == 201
    ensures var r := Do(p, false, [], ord, env, st);
      && r.out.err.Some? && HasText(r.out.err.value)
      && Text(r.out.err.value) == "expected response code " + "200" + " but got " + "201"
  {
    DoStatusFailureStops(p, false, [], ord, env, st, res);
    IntToStringExamples();
  }

  /** No expected code, status 400, body "some error message": the call fails
      with an `HttpError` carrying 400 and that text. */
  lemma ScenarioBadRequestWithBody<V, D>(p: Params<V>, ord: IterationOrder, env: Env<V, D>, st: ClientState, res: Response)
    requires ValidOrder(p, ord) && p.expectedResponseCode == 0
    requires Responded(p, ord, env, st, res) && res.status == 400
    requires res.body.Success? && BytesToString(res.body.value) == "some error message"
    ensures Do(p, false, [], ord, env, st).out.err == Some(HttpError(400, Some("some error message")))
  {
    DoStatusFailureStops(p, false, [], ord, env, st, res);
  }

  /** No expected code, status 500, empty body: the call fails with an
      `HttpError` carrying 500 and no message of its own. */
  lemma ScenarioServerErrorWithoutBody<V, D>(p: Params<V>, ord: IterationOrder, env: Env<V, D>, st: ClientState, res: Response)
    requires ValidOrder(p, ord) && p.expectedResponseCode == 0
    requires Responded(p, ord, env, st, res) && res.status == 500 && res.body == Success([])
    ensures Do(p, false, [], ord, env, st).out.err == Some(HttpError(500, None))
  {
    DoStatusFailureStops(p, false, [], ord, env, st, res);
  }
}
