/** The errors the package returns, as a tree, and the text Go's `Error()`
    method gives them. */
module Errors {
  import opened Wrappers
  import opened Strings

  datatype Error =
    /** An error returned by a library call (NewRequest, the transport, the
        JSON codec, the body reader or closer), carried as its text. */
    | Cause(msg: string)
    /** `fmt.Errorf("<context>: %w", cause)`. */
    | Wrapped(context: string, cause: Error)
    /** The error `checkResponseCode` builds when the expected code differs. */
    | CodeMismatch(expected: int, actual: int)
    /** `httperrors.New(status, message)`; `None` stands for the nil message. */
    | HttpError(status: int, message: Option<string>)
    /** `errors.New("too many arguments supplied")`. */
    | TooManyArguments

  /** Errors whose text this package formats itself; the text of an
      `HttpError` is produced by the `httperrors` library. */
  predicate HasText(e: Error) {
    match e
    case HttpError(_, _) => false
    case Wrapped(_, inner) => HasText(inner)
    case _ => true
  }

  /** The contexts `fmt.Errorf` adds in front of a wrapped error. */
  const CreateRequestContext: string := "failed to create request"
  const EncodeBodyContext: string := "failed to parse request body to json"
  const SendContext: string := "failed to send request"
  const ReadBodyContext: string := "failed to read response body"

  const ExpectedPrefix: string := "expected response code "
  const ButGot: string := " but got "

  /** The code-mismatch message of `checkResponseCode`, both codes rendered
      in decimal. */
  function MismatchText(expected: int, actual: int): string {
    ExpectedPrefix + IntToString(expected) + ButGot + IntToString(actual)
  }

  /** The mismatch text starts with "expected response code ", and its last
      word reads back as the actual code. */
  lemma MismatchTextReadsBack(expected: int, actual: int)
    ensures var s := MismatchText(expected, actual);
      && |s| > |ExpectedPrefix| && s[..|ExpectedPrefix|] == ExpectedPrefix
      && |IntToString(actual)| < |s|
      && ParseInt(s[|s| - |IntToString(actual)|..]) == Some(actual)
  {
    var s := MismatchText(expected, actual);
    IntToStringRoundTrip(actual);
    assert s[|s| - |IntToString(actual)|..] == IntToString(actual);
    assert s[..|ExpectedPrefix|] == ExpectedPrefix;
  }

  /** The result of `err.Error()`. */
  function Text(e: Error): (s: string)
    requires HasText(e)
    ensures e.Wrapped? ==> |s| > |e.context| && s[..|e.context|] == e.context
  {
    match e
    case Cause(m) => m
    case Wrapped(context, inner) => context + ": " + Text(inner)
    case CodeMismatch(expected, actual) => MismatchText(expected, actual)
    case TooManyArguments => "too many arguments supplied"
  }

  /** Two texts that both start with a space-free word followed by a space
      agree on that word and on what follows it. */
  lemma FirstWordUnique(x: string, rest: string, y: string, rest': string)
    requires ' ' !in x && ' ' !in y
    requires |rest| > 0 && rest[0] == ' '
    requires |rest'| > 0 && rest'[0] == ' '
    requires x + rest == y + rest'
    ensures x == y && rest == rest'
  {
    var s := x + rest;
    assert s[|x|] == ' ' && s[|y|] == ' ';
    assert forall i :: 0 <= i < |x| ==> s[i] == x[i] != ' ';
    assert forall i :: 0 <= i < |y| ==> s[i] == y[i] != ' ';
    assert x == s[..|x|] == y;
    assert rest == s[|x|..] == rest';
  }

  lemma CommonPrefix(p: string, a: string, b: string)
    requires p + a == p + b
    ensures a == b
  {
    assert a == (p + a)[|p|..];
    assert b == (p + b)[|p|..];
  }

  /** The mismatch message names both codes unambiguously: equal messages
      come only from equal (expected, actual) pairs. */
  lemma MismatchTextIdentifiesCodes(e1: int, a1: int, e2: int, a2: int)
    requires MismatchText(e1, a1) == MismatchText(e2, a2)
    ensures e1 == e2 && a1 == a2
  {
    var x1, x2 := IntToString(e1), IntToString(e2);
    var y1, y2 := IntToString(a1), IntToString(a2);
    assert MismatchText(e1, a1) == ExpectedPrefix + (x1 + (ButGot + y1));
    assert MismatchText(e2, a2) == ExpectedPrefix + (x2 + (ButGot + y2));
    CommonPrefix(ExpectedPrefix, x1 + (ButGot + y1), x2 + (ButGot + y2));
    FirstWordUnique(x1, ButGot + y1, x2, ButGot + y2);
    IntToStringInjective(e1, e2);
    CommonPrefix(ButGot, y1, y2);
    IntToStringInjective(a1, a2);
  }
}
