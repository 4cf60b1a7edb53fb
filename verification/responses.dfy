/** Response validation (`checkResponseCode`, `isSuccessCode`) and the copy of
    response headers into the caller's header map (`populateResponseHeader`). */
module Responses {
  import opened Wrappers
  import opened Strings
  import opened Http
  import opened Errors

  /** `isSuccessCode`: the 2xx range. */
  predicate IsSuccessCode(status: int) {
    200 <= status <= 299
  }

  /** The message `checkResponseCode` attaches to an `HttpError`: the body
      text when it could be read and is nonempty, otherwise none. */
  function BodyMessage(body: Result<seq<byte>, string>): (m: Option<string>)
    ensures m.Some? <==> body.Success? && |body.value| > 0
    ensures m.Some? ==> m.value == BytesToString(body.value)
  {
    if body.Failure? || |body.value| == 0 then None else Some(BytesToString(body.value))
  }

  /** The success codes are exactly the status class 2xx, the codes whose
      hundreds digit is 2. */
  lemma SuccessCodeClass(status: int)
    requires status >= 0
    ensures IsSuccessCode(status) <==> status / 100 == 2
  {
  }

  /** `checkResponseCode`: `None` is Go's nil error. */
  function CheckResponseCode(res: Response, expected: int): (r: Option<Error>)
    // a nonzero expected code that differs wins, whatever the status
    ensures expected != 0 && res.status != expected ==> r == Some(CodeMismatch(expected, res.status))
    // otherwise exactly the 2xx codes pass
    ensures (expected == 0 || res.status == expected) ==> (r.None? <==> 200 <= res.status <= 299)
    // and the failure carries the status and the body text, if any
    ensures (expected == 0 || res.status == expected) && r.Some? ==>
      r == Some(HttpError(res.status, BodyMessage(res.body)))
  {
    if expected != 0 && res.status != expected then
      Some(CodeMismatch(expected, res.status))
    else if !IsSuccessCode(res.status) then
      if res.body.Failure? || |res.body.value| == 0 then
        Some(HttpError(res.status, None))
      else
        Some(HttpError(res.status, Some(BytesToString(res.body.value))))
    else
      None
  }

  /** A mismatch is reported with the text "expected response code X but got Y",
      even when the actual status is itself a success code. */
  lemma MismatchWinsOverSuccess(res: Response, expected: int)
    requires expected != 0 && res.status != expected
    ensures CheckResponseCode(res, expected).Some?
    ensures Text(CheckResponseCode(res, expected).value) ==
      "expected response code " + IntToString(expected) + " but got " + IntToString(res.status)
  {
  }

  /** An expected code that is not a success code never passes: the status
      equals it, and the 2xx check still rejects it. */
  lemma ExpectedNonSuccessStillFails(res: Response, expected: int)
    requires expected != 0 && res.status == expected && !IsSuccessCode(expected)
    ensures CheckResponseCode(res, expected) == Some(HttpError(expected, BodyMessage(res.body)))
  {
  }

  /** The check passes exactly when the status is 2xx and matches the
      expected code, if one is set. */
  lemma CheckPassesIff(res: Response, expected: int)
    ensures CheckResponseCode(res, expected).None? <==>
      IsSuccessCode(res.status) && (expected == 0 || expected == res.status)
  {
  }

  /** `populateResponseHeader`: the header destinations after the copy. Zero
      destinations: nothing to do. More than one: a usage error and nothing is
      written. One: every response header is written into it. */
  function PopulateResponseHeader(res: Response, dests: seq<Header>): (r: Result<seq<Header>, Error>)
    ensures |dests| == 0 ==> r == Success(dests)
    ensures |dests| > 1 ==> r == Failure(TooManyArguments)
    ensures |dests| == 1 ==> r.Success? && |r.value| == 1
    ensures |dests| == 1 ==>
      && r.value[0].Keys == dests[0].Keys + res.header.Keys
      && (forall k :: k in res.header ==> r.value[0][k] == res.header[k])
      && (forall k :: k in dests[0] && k !in res.header ==> r.value[0][k] == dests[0][k])
  {
    if |dests| == 0 then Success(dests)
    else if |dests| > 1 then Failure(TooManyArguments)
    else Success([dests[0] + res.header])
  }

  /** Copying the same response's headers a second time changes nothing. */
  lemma PopulateIdempotent(res: Response, dests: seq<Header>)
    requires PopulateResponseHeader(res, dests).Success?
    ensures PopulateResponseHeader(res, PopulateResponseHeader(res, dests).value) == PopulateResponseHeader(res, dests)
  {
    if |dests| == 1 {
      var once := PopulateResponseHeader(res, dests).value;
      var twice := PopulateResponseHeader(res, once).value;
      assert twice[0] == once[0];
    }
  }
}
