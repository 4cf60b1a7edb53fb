# go-request policy layer in Dafny

This project models the decision logic of the `request` package of
fastbill/go-request. The package is a thin layer over Go's `net/http` for
JSON calls. It models:

- building a request: body conversion, default and caller headers, query merge;
- choosing the HTTP client: the lazily created shared client or a new one with a per-call timeout;
- validating the response status;
- copying response headers;
- composing the entry points `Do`, `DoWithStringResponse` and `DoWithCustomClient`, including the deferred close of the response body.

The library calls the package makes become oracle fields of environment
datatypes. They are never interpreted:

- `RequestLib`: JSON marshalling, `http.NewRequest`, `textproto.CanonicalMIMEHeaderKey`, `URL.Query()` and `url.Values.Encode`.
- `Env`: the transport `client.Do`, the JSON decoder, and the outcome of `res.Body.Close()`.

The model therefore fixes what the package decides and in which order, for
every behaviour of those libraries.

Modules:

- `Wrappers`: `Option` and `Result`.
- `Strings`: Go byte strings, `strings.Join` and its inverse `Split`, and `%d` rendering with its inverse `ParseInt`.
- `Http`: header and query maps, URL, request and response values.
- `Errors`: the returned errors as a tree (`fmt.Errorf` wrapping, the code mismatch, `httperrors.HTTPError`, the usage error), with the text `Error()` gives them.
- `Clients`: `GetClient`, `getCachedClient` and `selectClient`. The global `cachedClient` becomes an explicit `ClientState` that each call takes and returns. Client identity (the Go address) becomes an allocation number.
- `Requests`: `convertToReader`, `createRequest` and `ReformatMap`. Go's map iteration order is an explicit `IterationOrder` that enumerates each map's keys.
- `Responses`: `isSuccessCode`, `checkResponseCode` and `populateResponseHeader`.
- `Pipeline`: the entry points and the `Get`/`Post` wrappers.
- `PipelineProperties`: ordering, error precedence and the relations between the entry points.

Behaviours of the code worth knowing, all kept by the model:

- `Do` wraps the `http.NewRequest` error in "failed to create request" twice, once in `createRequest` and once in `Do`. `DoWithStringResponse` wraps it once, because it returns the `createRequest` error as is.
- `DoWithCustomClient` takes no header destination at all.
- `DoWithStringResponse` returns the body text together with a close error when only the close fails.
- On the code-mismatch path the body is not read before closing.

## Model

| member | source | states |
|---|---|---|
| `Strings.SplitJoin` | request.go:202 | Splitting a comma-joined list at the commas gives the list back when it is nonempty and no value contains a comma |
| `Strings.JoinSplit` | request.go:202 | Joining the comma-separated pieces of any text rebuilds that text |
| `Strings.JoinSnoc` | request.go:202 | Joining one more part to a nonempty list appends a comma and that part, whatever the parts contain |
| `Strings.IntToStringRoundTrip` | request.go:238 | The `%d` rendering of a code parses back to the same integer, negative values included |
| `Errors.MismatchTextIdentifiesCodes` | request.go:238 | Two mismatch messages are equal only when both the expected and the actual codes are equal |
| `Errors.Text` | request.go:60-66 | The text `Error()` gives: a wrapped error (the `%w` wrappings here and at request.go:119, 166 and 220) reads its context first, then ": " and the inner text; the mismatch and the usage error (request.go:238, 263) read as `Errors.MismatchTextReadsBack` and the scenario lemmas state |
| `Errors.MismatchTextReadsBack` | request.go:238 | The mismatch text (`Errors.MismatchText`) starts with "expected response code " and its last word parses back to the actual status code |
| `Clients.GetClient` | request.go:34-41 | Returns a client never handed out before, with the 30 s default timeout and no redirect following; the cache is unchanged |
| `Clients.GetCachedClient` | request.go:25-31 | Returns the cached client when there is one and changes nothing; otherwise creates one with the default timeout and caches it |
| `Clients.SelectClient` | request.go:226-234 | A nonzero timeout gives a new client with exactly that timeout and leaves the cache alone; zero gives the cached client with the default timeout |
| `Clients.SharedClientIsStable` | request.go:25-31 | After one zero-timeout selection, the next returns the identical client and leaves the state as it was |
| `Clients.FirstSharedClient` | request.go:18-31 | The starting state, with no shared client, is valid; the first zero-timeout call creates client 0 with the default timeout and no redirect following, and caches it |
| `Clients.SelectAllSharesOnlyTheCachedClient` | request.go:226-234 | Over any run of selections, all zero-timeout calls get one client, the cached one, with the default timeout. Each timeout call gets its own client with its timeout, distinct from the others and from the cached one |
| `Clients.SelectAllFrame` | request.go:25-31 | Over any run of selections the state stays valid, an existing cached client is kept, and a cached client created during the run is new |
| `Clients.SelectAllShared` | request.go:226-233 | Every zero-timeout selection in a run returns the client cached at the end, with the default timeout |
| `Clients.SelectAllPrivate` | request.go:227-230 | Every nonzero-timeout selection in a run returns a newly allocated client with that timeout, different from every other client of the run and from the cached one |
| `Requests.ConvertToReader` | request.go:207-224 | No body gives no payload; a reader passes through unchanged; a value becomes its JSON encoding plus a newline, or the encoder's error wrapped in "failed to parse request body to json" |
| `Requests.DefaultHeader` | request.go:168-169 | Before the caller's headers, the request has exactly Accept and Content-Type under their canonical names, each with the single value application/json |
| `Requests.SetAllNames` | request.go:170-172 | After setting the caller's headers, the names present are the earlier names plus the canonical names of the caller's keys |
| `Requests.SetAllLastWins` | request.go:170-172 | Among caller keys with the same canonical name, the one Go visits last decides the single value |
| `Requests.SetAllKeepsUnnamed` | request.go:170-172 | A header name no caller key canonicalises to keeps its earlier value |
| `Requests.SetAll` | request.go:170-172 | The header loop removes no header, and the key visited last holds exactly its own value under its canonical name |
| `Requests.SetAllMerges` | request.go:168-172 | With canonically distinct caller keys, the result is the defaults overridden by the caller's headers, whatever the iteration order |
| `Requests.BuildHeader` | request.go:168-172 | The outgoing header names are Accept, Content-Type and the caller's canonical names. With distinct keys, every caller header has its value and a default survives only when no caller key names it |
| `Requests.MergeQuery` | request.go:174-180 | The merged query keeps every existing value list as a prefix and appends exactly one supplied value for each supplied key; keys not supplied are unchanged |
| `Requests.AddAllAppends` | request.go:175-178 | Adding distinct keys one by one appends each supplied value once to that key's existing values and leaves the other keys alone |
| `Requests.AddAll` | request.go:175-178 | The query loop removes no key, and the key visited last ends with its supplied value |
| `Requests.AddAllIsMerge` | request.go:175-178 | Adding the supplied pairs in any enumeration order yields the order-free merge |
| `Requests.BuildUrl` | request.go:174-180 | With no query parameters the URL is untouched; otherwise only its query changes, to the encoding of the merge of its parsed query with the supplied pairs |
| `Requests.CreateRequest` | request.go:158-183 | A body conversion error is returned first and as is. A NewRequest error is wrapped in "failed to create request". Success happens exactly when both succeed, and the request then carries the method, the converted payload, the merged header and the built URL |
| `Requests.ReformatMap` | request.go:199-205 | The output has exactly the input's keys; an empty list becomes "" and a one-element list becomes its element; longer lists are pinned by `Requests.ReformatMapAppend` |
| `Requests.ReformatMapRecoverable` | request.go:199-205 | For nonempty, comma-free lists, splitting each output value at commas recovers the input list |
| `Requests.ReformatMapAppend` | request.go:199-205 | A list of two or more values becomes the string for all but the last value, a comma, and the last value, even when values hold commas |
| `Requests.ReformatMapKeepsCommas` | request.go:199-205 | The list ["a,b", "c"] becomes "a,b,c": a comma inside a value is copied as it is |
| `Responses.BodyMessage` | request.go:242-247 | The error message is present exactly when the body was read and is nonempty, and then it is the body text |
| `Responses.CheckResponseCode` | request.go:236-251 | A nonzero expected code that differs gives the mismatch error whatever the status. Otherwise the check passes exactly for 200..299, and a failure is an HTTPError with that status and the body message |
| `Responses.MismatchWinsOverSuccess` | request.go:237-239 | A differing expected code fails with the text "expected response code X but got Y", even for a 2xx status |
| `Responses.ExpectedNonSuccessStillFails` | request.go:237-248 | An expected code equal to a non-2xx status still fails with an HTTPError for that status |
| `Responses.CheckPassesIff` | request.go:236-255 | The check passes if and only if the status is 2xx and equals the expected code when one is set |
| `Responses.SuccessCodeClass` | request.go:253-255 | `isSuccessCode` accepts a nonnegative status exactly when it is in class 2xx, its hundreds digit being 2 |
| `Responses.PopulateResponseHeader` | request.go:257-272 | Zero destinations leave everything as is. More than one gives "too many arguments" and writes nothing. With one, every response header is written and the other entries are kept |
| `Responses.PopulateIdempotent` | request.go:266-269 | Copying the same response's headers twice gives the same destination as copying once |
| `Pipeline.Deferred` | request.go:69-73 | A close error becomes the result only when there is no error yet; an existing error is kept |
| `Pipeline.DecodeBody` | request.go:89 | A body read failure is the decode error; otherwise decoding succeeds exactly when the decoder does, with its value, and a decoder failure is returned with the decoder's own error |
| `Pipeline.Materialize` | request.go:85-89 | Without a destination the stage succeeds without decoding; with one it succeeds exactly when decoding does, with the decoded value, and otherwise fails with the decoding error itself |
| `Pipeline.Respond` | request.go:75-89 | A failing status check is returned with headers untouched and nothing decoded. More than one header destination fails with the usage error before decoding. Otherwise the headers are copied, a decode failure is the error, and on success the decoded value is the decoder's. The stages succeed exactly when the check, the argument count and the decode succeed |
| `Pipeline.Do` | request.go:57-90 | Create runs first; its failure is wrapped again and nothing is selected or sent. Otherwise the created request goes to the selected client, and a send failure is wrapped. Once a response arrived, the call succeeds exactly when the check, the argument count, the decode and the close succeed; a failing check, the usage error or the decode error is the call's error; headers are copied and the decoded value is the decoder's |
| `Pipeline.DoWithCustomClient` | request.go:129-156 | Sends the created request with the caller's client and never writes header destinations; a send failure is wrapped. Once a response arrived, the call succeeds exactly when the check, the decode and the close succeed; a failing check or the decode error is the call's error, and the decoded value is the decoder's |
| `Pipeline.DoWithStringResponse` | request.go:94-123 | Create errors are returned unwrapped with an empty result; a send failure is wrapped. Once a response arrived, a failing check is the error with an empty result; a readable body is returned as text with only the close left to fail; an unreadable body fails with "failed to read response body" |
| `PipelineProperties.DoCloseNeverMasks` | request.go:69-73 | Compared with a clean close, a failing close changes only a nil error, and only once a response arrived |
| `PipelineProperties.StringCloseNeverMasks` | request.go:106-110 | The same for the string variant; the body text is kept when the close fails after a successful read |
| `PipelineProperties.DoStatusFailureStops` | request.go:75-78 | A status failure is the call's error, whatever the close does; header destinations are untouched and nothing is decoded |
| `PipelineProperties.DoTooManyHeaderDestinations` | request.go:262-264 | Two or more header destinations fail with "too many arguments supplied" after a passing check, writing and decoding nothing |
| `PipelineProperties.DoNilDestinationSucceeds` | request.go:85-87 | Without a destination, a passing check, a valid header argument and a clean close make the call succeed whatever the body holds |
| `PipelineProperties.DoCopiesHeaders` | request.go:266-269 | With one destination and a passing check, the destination gets every response header and keeps its other entries |
| `PipelineProperties.DoNewRequestFailureDoublePrefix` | request.go:58-61 | A NewRequest failure in Do reads "failed to create request: failed to create request: …", and no client is selected |
| `PipelineProperties.DoBodyEncodingFailureText` | request.go:218-220 | A body that cannot be encoded fails Do with "failed to create request: failed to parse request body to json: …" before anything is sent |
| `PipelineProperties.StringNewRequestFailureSinglePrefix` | request.go:95-98 | In DoWithStringResponse the same failure carries the prefix once and the result is empty |
| `PipelineProperties.DoSendFailureText` | request.go:64-67 | A transport failure reads "failed to send request: …"; no response is closed and header destinations are untouched |
| `PipelineProperties.CustomClientIsDoWithoutHeaders` | request.go:129-156 | DoWithCustomClient with the client Do would select equals Do with no header destinations |
| `PipelineProperties.CustomClientIgnoresTimeout` | request.go:129-135 | The outcome of DoWithCustomClient does not depend on the Timeout parameter |
| `PipelineProperties.PostSendsEncodedBody` | request.go:190-193 | Post sends a POST whose payload is the JSON encoding plus a newline, carrying just the default headers and the URL as parsed |
| `PipelineProperties.GetSendsNoBody` | request.go:185-188 | Get sends a GET with no payload and only the default headers |
| `Pipeline.Get` | request.go:185-188 | Any request `Get` sends is a GET with no payload, and no header destination is involved |
| `Pipeline.Post` | request.go:190-193 | Any request `Post` sends is a POST; for a value body, encoding succeeded and the payload is the encoding plus a newline; no header destination is involved |
| `PipelineProperties.ScenarioWrongResponseCode` | request_test.go:288-302 | Expected 200 and got 201: the error text is exactly "expected response code 200 but got 201" |
| `PipelineProperties.ScenarioServerErrorWithoutBody` | request_test.go:222-239 | Status 500 with an empty body gives an HTTPError with status 500 and no message of its own |
| `PipelineProperties.ScenarioBadRequestWithBody` | request_test.go:241-260 | Status 400 with body "some error message" gives an HTTPError with status 400 and exactly that message |

## Left out

- Network I/O is left out: the transport `client.Do`, timeouts expiring in flight, redirect handling and cookie jars. The transport is an oracle from client and request to a response or an error text. The no-redirect policy is only the `followsRedirects` flag of each client.
- JSON encoding and decoding are oracles. `DecodeBody` hands the decoder all the body bytes, so the model assumes that decoding fails when reading the body fails. The model does not record a value the decoder partially wrote before failing.
- URL parsing, `http.NewRequest` validation, `URL.Query()`, `url.Values.Encode` (percent-encoding and key sorting) and `textproto.CanonicalMIMEHeaderKey` are oracles. `http.NewRequest` turning an empty method into GET is not modelled; the request keeps the caller's method.
- `Requests.BuildHeader` states the merge only for canonically distinct caller keys. With colliding keys the result depends on Go's map iteration order; `Requests.SetAllLastWins` covers that case, for the order given.
- `Errors.Text` leaves the text of an `httperrors.HTTPError` out, since that library supplies it (for example a default "Internal Server Error" when the message is nil). HTTP errors are compared as values instead.
- Concurrent access to the unsynchronised global `cachedClient` is left out: the model is sequential.
- A nil `*http.Client` passed to `DoWithCustomClient` is left out. Go panics when it sends with it; the model's client is always a value.
- A nil `http.Header` passed as the header destination is left out. Go panics there when the response has headers; the model's destinations are always maps.
- A nil value stored in the `Body` interface with a non-nil dynamic type is not distinguished. The body is one of three explicit cases.
- `int` and `time.Duration` are modelled as unbounded integers. The package does no arithmetic on them that could overflow.
- The response destination `responseBody` is modelled only by whether it is nil (`hasDest`). The decoded value stands for what the decoder writes into it.
