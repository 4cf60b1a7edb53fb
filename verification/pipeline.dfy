/** The entry points: `Do`, `DoWithStringResponse`, `DoWithCustomClient` and
    the `Get`/`Post` wrappers. Each runs its stages in order and stops at the
    first failure; once a response has arrived its body is closed on every
    path (the deferred close), and a close error becomes the call's error
    only when no earlier stage produced one. */
module Pipeline {
  import opened Wrappers
  import opened Strings
  import opened Http
  import opened Errors
  import opened Clients
  import opened Requests
  import opened Responses

  /** The world one call runs in: the request-building library calls, the
      transport (`client.Do`), the JSON decoder applied to the body bytes, and
      the outcome of `res.Body.Close()`. */
  datatype Env<!V, !D> = Env(
    lib: RequestLib<V>,
    transport: (Client, Request) -> Result<Response, string>,
    decode: seq<byte> -> Result<D, string>,
    closeErr: Option<string>)

  /** What a `Do`-style call leaves behind: its error (`None` is nil), the
      value decoded into the destination, the header destinations after the
      call, the request handed to the transport and the response it returned. */
  datatype DoOutcome<D> = DoOutcome(
    err: Option<Error>,
    decoded: Option<D>,
    headerDests: seq<Header>,
    sent: Option<Request>,
    received: Option<Response>)

  /** What `DoWithStringResponse` leaves behind. */
  datatype StringOutcome = StringOutcome(
    result: string,
    err: Option<Error>,
    sent: Option<Request>,
    received: Option<Response>)

  /** An outcome together with the client state after the call. */
  datatype Step<T> = Step(out: T, clients: ClientState)

  /** The deferred `res.Body.Close()`: its error replaces a nil result and
      never an error already being returned. */
  function Deferred(err: Option<Error>, closeErr: Option<string>): (r: Option<Error>)
    ensures err.Some? ==> r == err
    ensures err.None? ==> (r.Some? <==> closeErr.Some?)
    ensures err.None? && closeErr.Some? ==> r == Some(Cause(closeErr.value))
  {
    if err.None? && closeErr.Some? then Some(Cause(closeErr.value)) else err
  }

  /** The JSON decoding of the response body into the caller's destination:
      a failure to read the body surfaces as the decoder's error. */
  function DecodeBody<D>(body: Result<seq<byte>, string>, decode: seq<byte> -> Result<D, string>): (r: Result<D, Error>)
    ensures body.Failure? ==> r == Failure(Cause(body.error))
    ensures body.Success? ==> (r.Success? <==> decode(body.value).Success?)
    ensures r.Success? ==> r.value == decode(body.value).value
    // the decoder's error is returned as is
    ensures body.Success? && decode(body.value).Failure? ==> r == Failure(Cause(decode(body.value).error))
  {
    match body
    case Failure(m) => Failure(Cause(m))
    case Success(bytes) =>
      match decode(bytes)
      case Failure(m) => Failure(Cause(m))
      case Success(v) => Success(v)
  }

  /** The last stage of `Do` and `DoWithCustomClient`: decode when there is a
      destination (Go's non-nil `responseBody`), otherwise succeed untouched. */
  function Materialize<D>(res: Response, hasDest: bool, decode: seq<byte> -> Result<D, string>): (r: Result<Option<D>, Error>)
    ensures !hasDest ==> r == Success(None)
    ensures hasDest ==> (r.Success? <==> DecodeBody(res.body, decode).Success?)
    ensures hasDest && r.Success? ==> r.value == Some(DecodeBody(res.body, decode).value)
    ensures hasDest && DecodeBody(res.body, decode).Failure? ==> r == Failure(DecodeBody(res.body, decode).error)
  {
    if !hasDest then Success(None)
    else
      match DecodeBody(res.body, decode)
      case Failure(e) => Failure(e)
      case Success(v) => Success(Some(v))
  }

  /** The stages of `Do` after the response arrived, before the deferred
      close: status check, header copy, decoding. */
  function Respond<D>(res: Response, expected: int, hasDest: bool, dests: seq<Header>, decode: seq<byte> -> Result<D, string>): (r: DoOutcome<D>)
    ensures r.sent.None? && r.received.None?
    ensures CheckResponseCode(res, expected).Some? ==>
      r == DoOutcome(CheckResponseCode(res, expected), None, dests, None, None)
    ensures r.headerDests != dests ==> CheckResponseCode(res, expected).None? && |dests| == 1
    ensures r.decoded.Some? ==> hasDest && CheckResponseCode(res, expected).None? && |dests| <= 1
    ensures r.err.None? <==>
      && CheckResponseCode(res, expected).None?
      && |dests| <= 1
      && Materialize(res, hasDest, decode).Success?
    // more than one header argument is a usage error, before any decoding
    ensures CheckResponseCode(res, expected).None? && |dests| > 1 ==>
      r == DoOutcome(Some(TooManyArguments), None, dests, None, None)
    // past the status check and the argument count, the headers are copied
    // and the decoder decides the rest: its error, or the value it produced
    ensures CheckResponseCode(res, expected).None? && |dests| <= 1 ==>
      && r.headerDests == PopulateResponseHeader(res, dests).value
      && (Materialize(res, hasDest, decode).Failure? ==>
            r.err == Some(Materialize(res, hasDest, decode).error) && r.decoded.None?)
    ensures r.err.None? ==> r.decoded == Materialize(res, hasDest, decode).value
  {
    match CheckResponseCode(res, expected)
    case Some(e) => DoOutcome(Some(e), None, dests, None, None)
    case None =>
      match PopulateResponseHeader(res, dests)
      case Failure(e) => DoOutcome(Some(e), None, dests, None, None)
      case Success(copied) =>
        match Materialize(res, hasDest, decode)
        case Failure(e) => DoOutcome(Some(e), None, copied, None, None)
        case Success(v) => DoOutcome(None, v, copied, None, None)
  }

  /** `Do`: create the request, select the client, send, then check the
      status, copy the headers and decode; close the body once a response
      arrived. */
  function Do<V, D>(p: Params<V>, hasDest: bool, dests: seq<Header>, ord: IterationOrder, env: Env<V, D>, st: ClientState): (r: Step<DoOutcome<D>>)
    requires ValidOrder(p, ord)
    ensures Valid(st) ==> Valid(r.clients)
    // creating the request comes first; its failure is wrapped once more, and
    // nothing else happens: no client is selected and nothing is sent
    ensures CreateRequest(p, env.lib, ord).Failure? ==>
      r == Step(DoOutcome(Some(Wrapped(CreateRequestContext, CreateRequest(p, env.lib, ord).error)), None, dests, None, None), st)
    ensures CreateRequest(p, env.lib, ord).Success? ==>
      && r.out.sent == Some(CreateRequest(p, env.lib, ord).value)
      && r.clients == SelectClient(p.timeout, st).state
      && r.out.received == env.transport(SelectClient(p.timeout, st).client, r.out.sent.value).ToOption()
    // a send failure is wrapped and stops the call
    ensures r.out.sent.Some? && r.out.received.None? ==>
      && r.out.err == Some(Wrapped(SendContext,
                                   Cause(env.transport(SelectClient(p.timeout, st).client, r.out.sent.value).error)))
      && r.out.headerDests == dests && r.out.decoded.None?
    // the header destinations change only after a passing status check
    ensures r.out.headerDests != dests ==>
      r.out.received.Some? && CheckResponseCode(r.out.received.value, p.expectedResponseCode).None? && |dests| == 1
    // the call succeeds only after a response arrived
    ensures r.out.err.None? ==> r.out.received.Some?
    // once a response arrived: the call succeeds exactly when the status check,
    // the argument count, the decoding and the close all succeed; a failing
    // stage's error is returned; the decoded value is the decoder's
    ensures r.out.received.Some? ==>
      var res := r.out.received.value;
      && (r.out.err.None? <==>
            && CheckResponseCode(res, p.expectedResponseCode).None?
            && |dests| <= 1
            && Materialize(res, hasDest, env.decode).Success?
            && env.closeErr.None?)
      && (CheckResponseCode(res, p.expectedResponseCode).Some? ==>
            r.out.err == CheckResponseCode(res, p.expectedResponseCode) && r.out.decoded.None?)
      && (CheckResponseCode(res, p.expectedResponseCode).None? && |dests| > 1 ==>
            r.out.err == Some(TooManyArguments) && r.out.decoded.None?)
      && (CheckResponseCode(res, p.expectedResponseCode).None? && |dests| <= 1 ==>
            && r.out.headerDests == PopulateResponseHeader(res, dests).value
            && (Materialize(res, hasDest, env.decode).Failure? ==>
                  r.out.err == Some(Materialize(res, hasDest, env.decode).error) && r.out.decoded.None?)
            && (Materialize(res, hasDest, env.decode).Success? ==>
                  r.out.decoded == Materialize(res, hasDest, env.decode).value))
  {
    match CreateRequest(p, env.lib, ord)
    case Failure(e) =>
      Step(DoOutcome(Some(Wrapped(CreateRequestContext, e)), None, dests, None, None), st)
    case Success(req) =>
      var sel := SelectClient(p.timeout, st);
      match env.transport(sel.client, req)
      case Failure(m) =>
        Step(DoOutcome(Some(Wrapped(SendContext, Cause(m))), None, dests, Some(req), None), sel.state)
      case Success(res) =>
        var o := Respond(res, p.expectedResponseCode, hasDest, dests, env.decode);
        Step(DoOutcome(Deferred(o.err, env.closeErr), o.decoded, o.headerDests, Some(req), Some(res)), sel.state)
  }

  /** `DoWithCustomClient`: `Do` with the caller's client, without header
      destinations and without the header-copy stage; `Timeout` is not
      consulted. */
  function DoWithCustomClient<V, D>(p: Params<V>, hasDest: bool, client: Client, ord: IterationOrder, env: Env<V, D>): (r: DoOutcome<D>)
    requires ValidOrder(p, ord)
    ensures r.headerDests == []
    ensures CreateRequest(p, env.lib, ord).Failure? ==>
      r == DoOutcome(Some(Wrapped(CreateRequestContext, CreateRequest(p, env.lib, ord).error)), None, [], None, None)
    ensures CreateRequest(p, env.lib, ord).Success? ==>
      && r.sent == Some(CreateRequest(p, env.lib, ord).value)
      && r.received == env.transport(client, r.sent.value).ToOption()
    // a send failure is wrapped and stops the call
    ensures r.sent.Some? && r.received.None? ==>
      r.err == Some(Wrapped(SendContext, Cause(env.transport(client, r.sent.value).error))) && r.decoded.None?
    ensures r.err.None? ==> r.received.Some?
    // once a response arrived: the call succeeds exactly when the status check,
    // the decoding and the close succeed; a failing stage's error is returned;
    // the decoded value is the decoder's
    ensures r.received.Some? ==>
      var res := r.received.value;
      && (r.err.None? <==>
            && CheckResponseCode(res, p.expectedResponseCode).None?
            && Materialize(res, hasDest, env.decode).Success?
            && env.closeErr.None?)
      && (CheckResponseCode(res, p.expectedResponseCode).Some? ==>
            r.err == CheckResponseCode(res, p.expectedResponseCode) && r.decoded.None?)
      && (CheckResponseCode(res, p.expectedResponseCode).None? ==>
            && (Materialize(res, hasDest, env.decode).Failure? ==>
                  r.err == Some(Materialize(res, hasDest, env.decode).error) && r.decoded.None?)
            && (Materialize(res, hasDest, env.decode).Success? ==>
                  r.decoded == Materialize(res, hasDest, env.decode).value))
  {
    match CreateRequest(p, env.lib, ord)
    case Failure(e) =>
      DoOutcome(Some(Wrapped(CreateRequestContext, e)), None, [], None, None)
    case Success(req) =>
      match env.transport(client, req)
      case Failure(m) =>
        DoOutcome(Some(Wrapped(SendContext, Cause(m))), None, [], Some(req), None)
      case Success(res) =>
        match CheckResponseCode(res, p.expectedResponseCode)
        case Some(e) =>
          DoOutcome(Deferred(Some(e), env.closeErr), None, [], Some(req), Some(res))
        case None =>
          match Materialize(res, hasDest, env.decode)
          case Failure(e) => DoOutcome(Deferred(Some(e), env.closeErr), None, [], Some(req), Some(res))
          case Success(v) => DoOutcome(Deferred(None, env.closeErr), v, [], Some(req), Some(res))
  }

  /** `DoWithStringResponse`: like `Do` but returns the body as text; a
      failure to create the request is returned without a prefix. */
  function DoWithStringResponse<V, D>(p: Params<V>, ord: IterationOrder, env: Env<V, D>, st: ClientState): (r: Step<StringOutcome>)
    requires ValidOrder(p, ord)
    ensures Valid(st) ==> Valid(r.clients)
    ensures CreateRequest(p, env.lib, ord).Failure? ==>
      r == Step(StringOutcome("", Some(CreateRequest(p, env.lib, ord).error), None, None), st)
    ensures CreateRequest(p, env.lib, ord).Success? ==>
      && r.out.sent == Some(CreateRequest(p, env.lib, ord).value)
      && r.clients == SelectClient(p.timeout, st).state
      && r.out.received == env.transport(SelectClient(p.timeout, st).client, r.out.sent.value).ToOption()
    // the text is the body exactly when the status check passed and the body
    // could be read; it is empty otherwise
    ensures r.out.result != "" ==>
      && r.out.received.Some?
      && CheckResponseCode(r.out.received.value, p.expectedResponseCode).None?
      && r.out.received.value.body.Success?
      && r.out.result == BytesToString(r.out.received.value.body.value)
    ensures r.out.err.None? ==>
      && r.out.received.Some?
      && CheckResponseCode(r.out.received.value, p.expectedResponseCode).None?
      && r.out.received.value.body.Success?
      && r.out.result == BytesToString(r.out.received.value.body.value)
      && env.closeErr.None?
    // a send failure is wrapped and stops the call
    ensures r.out.sent.Some? && r.out.received.None? ==>
      && r.out.result == ""
      && r.out.err == Some(Wrapped(SendContext,
                                   Cause(env.transport(SelectClient(p.timeout, st).client, r.out.sent.value).error)))
    // once a response arrived: a failing status check is the error; otherwise
    // a readable body is returned as text, with only the close left to fail,
    // and an unreadable one fails with "failed to read response body"
    ensures r.out.received.Some? ==>
      var res := r.out.received.value;
      && (CheckResponseCode(res, p.expectedResponseCode).Some? ==>
            r.out.result == "" && r.out.err == CheckResponseCode(res, p.expectedResponseCode))
      && (CheckResponseCode(res, p.expectedResponseCode).None? && res.body.Success? ==>
            r.out.result == BytesToString(res.body.value) && r.out.err == Deferred(None, env.closeErr))
      && (CheckResponseCode(res, p.expectedResponseCode).None? && res.body.Failure? ==>
            r.out.result == "" && r.out.err == Some(Wrapped(ReadBodyContext, Cause(res.body.error))))
  {
    match CreateRequest(p, env.lib, ord)
    case Failure(e) => Step(StringOutcome("", Some(e), None, None), st)
    case Success(req) =>
      var sel := SelectClient(p.timeout, st);
      match env.transport(sel.client, req)
      case Failure(m) =>
        Step(StringOutcome("", Some(Wrapped(SendContext, Cause(m))), Some(req), None), sel.state)
      case Success(res) =>
        match CheckResponseCode(res, p.expectedResponseCode)
        case Some(e) =>
          Step(StringOutcome("", Deferred(Some(e), env.closeErr), Some(req), Some(res)), sel.state)
        case None =>
          match res.body
          case Failure(m) =>
            var e := Wrapped(ReadBodyContext, Cause(m));
            Step(StringOutcome("", Deferred(Some(e), env.closeErr), Some(req), Some(res)), sel.state)
          case Success(bytes) =>
            Step(StringOutcome(BytesToString(bytes), Deferred(None, env.closeErr), Some(req), Some(res)), sel.state)
  }

  /** `Params{Method: http.MethodGet, URL: url}`. */
  function GetParams<V>(url: string): Params<V> {
    Params(url, "GET", map[], NoBody, map[], 0, 0)
  }

  /** `Params{Method: http.MethodPost, URL: url, Body: requestBody}`. */
  function PostParams<V>(url: string, requestBody: Body<V>): Params<V> {
    Params(url, "POST", map[], requestBody, map[], 0, 0)
  }

  const NoOrder: IterationOrder := IterationOrder([], [])

  /** `Get`. */
  function Get<V, D>(url: string, hasDest: bool, env: Env<V, D>, st: ClientState): (r: Step<DoOutcome<D>>)
    ensures r.out.sent.Some? ==> r.out.sent.value.httpMethod == "GET" && r.out.sent.value.body.None?
    ensures r.out.headerDests == []
  {
    Do(GetParams(url), hasDest, [], NoOrder, env, st)
  }

  /** `Post`. */
  function Post<V, D>(url: string, requestBody: Body<V>, hasDest: bool, env: Env<V, D>, st: ClientState): (r: Step<DoOutcome<D>>)
    ensures r.out.sent.Some? ==> r.out.sent.value.httpMethod == "POST"
    ensures r.out.sent.Some? && requestBody.Json? ==>
      env.lib.marshal(requestBody.value).Success? &&
      r.out.sent.value.body == Some(env.lib.marshal(requestBody.value).value + [Newline])
    ensures r.out.headerDests == []
  {
    Do(PostParams(url, requestBody), hasDest, [], NoOrder, env, st)
  }
}
