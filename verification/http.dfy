/** The `net/http` and `net/url` values the package exchanges with the
    transport, reduced to the parts its policy inspects. */
module Http {
  import opened Wrappers
  import opened Strings

  /** `http.Header`: canonical header name to its list of values. */
  type Header = map<string, seq<string>>

  /** `url.Values`: query key to its list of values, in insertion order. */
  type Values = map<string, seq<string>>

  /** A parsed URL: everything before the query, and the raw (encoded) query. */
  datatype Url = Url(base: string, rawQuery: string)

  /** An `http.Request` as handed to the transport. `body` is `None` when the
      request has no payload (Go's nil reader). */
  datatype Request = Request(httpMethod: string, url: Url, header: Header, body: Option<seq<byte>>)

  /** An `http.Response` as the pipeline observes it: the status code, the
      headers, and what reading the whole body stream yields (its bytes, or the
      text of the read error). The body stream is read at most once on every
      path of the pipeline, so one outcome describes it. */
  datatype Response = Response(status: int, header: Header, body: Result<seq<byte>, string>)
}
