/** Request building: `convertToReader`, `createRequest` with its header and
    query policy, and the `ReformatMap` utility. */
module Requests {
  import opened Wrappers
  import opened Strings
  import opened Http
  import opened Errors

  /** The `Body` parameter: absent (nil), an `io.Reader` whose content is sent
      as is, or any other value, which is JSON-encoded. */
  datatype Body<V> = NoBody | Reader(content: seq<byte>) | Json(value: V)

  /** `Params`. `timeout` is a `time.Duration` in nanoseconds; 0 means "use the
      shared client". `expectedResponseCode` 0 means "any 2xx". */
  datatype Params<V> = Params(
    url: string,
    httpMethod: string,
    headers: map<string, string>,
    body: Body<V>,
    query: map<string, string>,
    timeout: int,
    expectedResponseCode: int)

  /** The library calls `createRequest` makes, as oracles:
      `marshal` is the JSON encoding of a value (`json.Encoder.Encode` writes it
      followed by a newline); `newRequest` is `http.NewRequest`'s validation of
      the method and parsing of the URL; `canonicalKey` is
      `textproto.CanonicalMIMEHeaderKey`; `parseQuery` is `URL.Query()`;
      `encodeQuery` is `url.Values.Encode`. */
  datatype RequestLib<!V> = RequestLib(
    marshal: V -> Result<seq<byte>, string>,
    newRequest: (string, string) -> Result<Url, string>,
    canonicalKey: string -> string,
    parseQuery: string -> Values,
    encodeQuery: Values -> string)

  /** The order in which Go's runtime happens to range over the header and
      query maps of one call. */
  datatype IterationOrder = IterationOrder(headers: seq<string>, query: seq<string>)

  /** `order` lists every key of `keys` exactly once. */
  predicate Enumerates(order: seq<string>, keys: set<string>) {
    && (forall i :: 0 <= i < |order| ==> order[i] in keys)
    && (forall k :: k in keys ==> k in order)
    && (forall i, j :: 0 <= i < j < |order| ==> order[i] != order[j])
  }

  predicate ValidOrder<V>(p: Params<V>, ord: IterationOrder) {
    Enumerates(ord.headers, p.headers.Keys) && Enumerates(ord.query, p.query.Keys)
  }

  const JsonMediaType: string := "application/json"
  const Newline: byte := 10

  // ---------------------------------------------------------------------
  // Body
  // ---------------------------------------------------------------------

  /** `convertToReader`: the request payload, or the encoding error. */
  function ConvertToReader<V>(body: Body<V>, marshal: V -> Result<seq<byte>, string>): (r: Result<Option<seq<byte>>, Error>)
    ensures body.NoBody? ==> r == Success(None)
    ensures body.Reader? ==> r == Success(Some(body.content))
    ensures body.Json? ==> (r.Success? <==> marshal(body.value).Success?)
    ensures body.Json? && r.Success? ==> r.value == Some(marshal(body.value).value + [Newline])
    ensures r.Failure? ==>
      body.Json? && r.error == Wrapped(EncodeBodyContext, Cause(marshal(body.value).error))
  {
    match body
    case NoBody => Success(None)
    case Reader(content) => Success(Some(content))
    case Json(v) =>
      match marshal(v)
      case Failure(m) => Failure(Wrapped(EncodeBodyContext, Cause(m)))
      case Success(encoded) => Success(Some(encoded + [Newline]))
  }

  // ---------------------------------------------------------------------
  // Headers
  // ---------------------------------------------------------------------

  /** `Header.Set`: the canonical name now has exactly this one value. */
  function SetHeader(h: Header, key: string, value: string, canon: string -> string): Header {
    h[canon(key) := [value]]
  }

  /** The header before the caller's headers are applied: JSON accepted and
      sent, under the canonical names of Accept and Content-Type. */
  function DefaultHeader(canon: string -> string): (h: Header)
    ensures h.Keys == {canon("Accept"), canon("Content-Type")}
    ensures h[canon("Accept")] == [JsonMediaType] && h[canon("Content-Type")] == [JsonMediaType]
  {
    SetHeader(SetHeader(map[], "Accept", JsonMediaType, canon), "Content-Type", JsonMediaType, canon)
  }

  /** No later key in `order` canonicalises to the same name as `order[i]`. */
  predicate LastWithName(order: seq<string>, i: int, canon: string -> string)
    requires 0 <= i < |order|
  {
    forall j :: i < j < |order| ==> canon(order[j]) != canon(order[i])
  }

  /** No key in `order` canonicalises to `name`. */
  predicate Unnamed(order: seq<string>, name: string, canon: string -> string) {
    forall i :: 0 <= i < |order| ==> canon(order[i]) != name
  }

  /** Some key in `order` canonicalises to `name`. */
  predicate Named(order: seq<string>, name: string, canon: string -> string) {
    exists i :: 0 <= i < |order| && canon(order[i]) == name
  }

  /** The header loop of `createRequest`: `Header.Set` for each caller header,
      with the keys visited in `order`. */
  function SetAll(h: Header, order: seq<string>, values: map<string, string>, canon: string -> string): (r: Header)
    requires forall i :: 0 <= i < |order| ==> order[i] in values
    // no header is removed, and the key visited last holds its value alone
    ensures h.Keys <= r.Keys
    ensures |order| > 0 ==> canon(order[|order| - 1]) in r && r[canon(order[|order| - 1])] == [values[order[|order| - 1]]]
    decreases |order|
  {
    if |order| == 0 then h
    else
      var last := order[|order| - 1];
      SetHeader(SetAll(h, order[..|order| - 1], values, canon), last, values[last], canon)
  }

  /** The names after the loop are the names before it and the canonical
      names of the keys visited. */
  lemma {:induction false} SetAllNames(h: Header, order: seq<string>, values: map<string, string>, canon: string -> string)
    requires forall i :: 0 <= i < |order| ==> order[i] in values
    ensures forall n :: n in SetAll(h, order, values, canon) <==> (n in h || Named(order, n, canon))
    decreases |order|
  {
    if |order| > 0 {
      var prefix := order[..|order| - 1];
      var last := order[|order| - 1];
      SetAllNames(h, prefix, values, canon);
      forall n
        ensures Named(order, n, canon) <==> (canon(last) == n || Named(prefix, n, canon))
      {
        if Named(order, n, canon) {
          var i :| 0 <= i < |order| && canon(order[i]) == n;
          if i < |prefix| {
            assert canon(prefix[i]) == n;
          }
        }
        if Named(prefix, n, canon) {
          var i :| 0 <= i < |prefix| && canon(prefix[i]) == n;
          assert canon(order[i]) == n;
        }
      }
    }
  }

  /** Among keys that canonicalise to the same name, the one visited last
      decides the value: `Header.Set` keeps only it. */
  lemma {:induction false} SetAllLastWins(h: Header, order: seq<string>, values: map<string, string>, canon: string -> string)
    requires forall i :: 0 <= i < |order| ==> order[i] in values
    ensures forall i :: 0 <= i < |order| && LastWithName(order, i, canon) ==>
      canon(order[i]) in SetAll(h, order, values, canon) &&
      SetAll(h, order, values, canon)[canon(order[i])] == [values[order[i]]]
    decreases |order|
  {
    if |order| > 0 {
      var prefix := order[..|order| - 1];
      SetAllLastWins(h, prefix, values, canon);
      forall i | 0 <= i < |order| - 1 && LastWithName(order, i, canon)
        ensures LastWithName(prefix, i, canon) && canon(order[i]) != canon(order[|order| - 1])
      {
      }
    }
  }

  /** A name no visited key canonicalises to keeps its value. */
  lemma {:induction false} SetAllKeepsUnnamed(h: Header, order: seq<string>, values: map<string, string>, canon: string -> string)
    requires forall i :: 0 <= i < |order| ==> order[i] in values
    ensures forall n :: n in h && Unnamed(order, n, canon) ==>
      n in SetAll(h, order, values, canon) && SetAll(h, order, values, canon)[n] == h[n]
    decreases |order|
  {
    if |order| > 0 {
      var prefix := order[..|order| - 1];
      SetAllKeepsUnnamed(h, prefix, values, canon);
      forall n | n in h && Unnamed(order, n, canon)
        ensures Unnamed(prefix, n, canon) && canon(order[|order| - 1]) != n
      {
        assert forall i :: 0 <= i < |prefix| ==> prefix[i] == order[i];
      }
    }
  }

  /** The caller's header keys name pairwise different canonical headers. */
  predicate CanonicallyDistinct(headers: map<string, string>, canon: string -> string) {
    forall k1, k2 :: k1 in headers && k2 in headers && k1 != k2 ==> canon(k1) != canon(k2)
  }

  /** `out` is `defaults` overridden by the caller's headers under their
      canonical names: the names are those of both; every caller header is
      present with its value; a default keeps its value exactly when no caller
      key canonicalises to its name. */
  ghost predicate IsHeaderMerge(defaults: Header, headers: map<string, string>, canon: string -> string, out: Header) {
    && (forall n :: n in out <==> (n in defaults || exists k :: k in headers && canon(k) == n))
    && (forall k :: k in headers ==> canon(k) in out && out[canon(k)] == [headers[k]])
    && (forall n :: n in defaults && (forall k :: k in headers ==> canon(k) != n) ==> out[n] == defaults[n])
  }

  /** When the caller's keys are canonically distinct, the order Go visits
      them in does not matter: the result is the merge. */
  lemma SetAllMerges(h: Header, order: seq<string>, headers: map<string, string>, canon: string -> string)
    requires Enumerates(order, headers.Keys)
    requires CanonicallyDistinct(headers, canon)
    ensures IsHeaderMerge(h, headers, canon, SetAll(h, order, headers, canon))
  {
    var r := SetAll(h, order, headers, canon);
    SetAllNames(h, order, headers, canon);
    SetAllLastWins(h, order, headers, canon);
    SetAllKeepsUnnamed(h, order, headers, canon);
    forall n
      ensures Named(order, n, canon) <==> (exists k :: k in headers && canon(k) == n)
    {
      if exists k :: k in headers && canon(k) == n {
        var k :| k in headers && canon(k) == n;
        var i :| 0 <= i < |order| && order[i] == k;
      }
    }
    forall k | k in headers
      ensures canon(k) in r && r[canon(k)] == [headers[k]]
    {
      var i :| 0 <= i < |order| && order[i] == k;
      assert LastWithName(order, i, canon);
    }
    forall n | n in h && (forall k :: k in headers ==> canon(k) != n)
      ensures r[n] == h[n]
    {
      assert Unnamed(order, n, canon);
    }
  }

  // ---------------------------------------------------------------------
  // Query
  // ---------------------------------------------------------------------

  /** The values `q` already holds for `key`. */
  function Existing(q: Values, key: string): seq<string> {
    if key in q then q[key] else []
  }

  /** `url.Values.Add`: append a value to the key's list. */
  function AddValue(q: Values, key: string, value: string): Values {
    q[key := Existing(q, key) + [value]]
  }

  /** The merged query, independent of any order: every key of either map,
      with the existing values followed by the supplied one. */
  function MergeQuery(q: Values, pairs: map<string, string>): (r: Values)
    ensures r.Keys == q.Keys + pairs.Keys
    ensures forall k :: k in q ==> |q[k]| <= |r[k]| && r[k][..|q[k]|] == q[k]
    ensures forall k :: k in pairs ==> |r[k]| == |Existing(q, k)| + 1 && r[k][|r[k]| - 1] == pairs[k]
    ensures forall k :: k in q && k !in pairs ==> r[k] == q[k]
  {
    map k | k in q.Keys + pairs.Keys :: Existing(q, k) + (if k in pairs then [pairs[k]] else [])
  }

  /** The query loop of `createRequest`: `Values.Add` for each supplied pair,
      with the keys visited in `order`. */
  function AddAll(q: Values, order: seq<string>, pairs: map<string, string>): (r: Values)
    requires forall i :: 0 <= i < |order| ==> order[i] in pairs
    // no key is removed, and the key visited last ends with its supplied value
    ensures q.Keys <= r.Keys
    ensures |order| > 0 ==> order[|order| - 1] in r && |r[order[|order| - 1]]| > 0 && r[order[|order| - 1]][|r[order[|order| - 1]]| - 1] == pairs[order[|order| - 1]]
    decreases |order|
  {
    if |order| == 0 then q
    else
      var last := order[|order| - 1];
      AddValue(AddAll(q, order[..|order| - 1], pairs), last, pairs[last])
  }

  /** Visiting distinct keys, each one's supplied value is appended once to
      what the query held for it; other keys keep their values. */
  lemma {:induction false} AddAllAppends(q: Values, order: seq<string>, pairs: map<string, string>)
    requires forall i :: 0 <= i < |order| ==> order[i] in pairs
    requires forall i, j :: 0 <= i < j < |order| ==> order[i] != order[j]
    ensures var r := AddAll(q, order, pairs);
      && (forall n :: n in r <==> n in q || n in order)
      && (forall n :: n in order ==> r[n] == Existing(q, n) + [pairs[n]])
      && (forall n :: n in q && n !in order ==> r[n] == q[n])
    decreases |order|
  {
    if |order| > 0 {
      var prefix := order[..|order| - 1];
      var last := order[|order| - 1];
      AddAllAppends(q, prefix, pairs);
      assert order == prefix + [last];
      assert last !in prefix;
    }
  }

  /** Adding the supplied pairs in Go's map order gives the order-free merge. */
  lemma AddAllIsMerge(q: Values, order: seq<string>, pairs: map<string, string>)
    requires Enumerates(order, pairs.Keys)
    ensures AddAll(q, order, pairs) == MergeQuery(q, pairs)
  {
    AddAllAppends(q, order, pairs);
    var r := AddAll(q, order, pairs);
    var m := MergeQuery(q, pairs);
    assert r.Keys == m.Keys;
    forall k | k in r
      ensures r[k] == m[k]
    {
      if k in pairs {
        assert k in order;
      }
    }
  }

  // ---------------------------------------------------------------------
  // createRequest
  // ---------------------------------------------------------------------

  /** The outgoing header: the defaults, then every caller header set in
      Go's map order. Its names are the default names and the canonical names
      of the caller's keys; with canonically distinct keys it is the merge. */
  function BuildHeader<V>(p: Params<V>, lib: RequestLib<V>, ord: IterationOrder): (h: Header)
    requires ValidOrder(p, ord)
    ensures forall n :: n in h <==>
      (n in DefaultHeader(lib.canonicalKey) || exists k :: k in p.headers && lib.canonicalKey(k) == n)
    ensures CanonicallyDistinct(p.headers, lib.canonicalKey) ==>
      IsHeaderMerge(DefaultHeader(lib.canonicalKey), p.headers, lib.canonicalKey, h)
  {
    var canon := lib.canonicalKey;
    var defaults := DefaultHeader(canon);
    var h := SetAll(defaults, ord.headers, p.headers, canon);
    SetAllNames(defaults, ord.headers, p.headers, canon);
    assert forall n :: Named(ord.headers, n, canon) <==> exists k :: k in p.headers && canon(k) == n by {
      forall n
        ensures Named(ord.headers, n, canon) <==> exists k :: k in p.headers && canon(k) == n
      {
        if exists k :: k in p.headers && canon(k) == n {
          var k :| k in p.headers && canon(k) == n;
          var i :| 0 <= i < |ord.headers| && ord.headers[i] == k;
        }
      }
    }
    if CanonicallyDistinct(p.headers, canon) then
      SetAllMerges(defaults, ord.headers, p.headers, canon);
      h
    else
      h
  }

  /** The outgoing URL: untouched without query parameters, otherwise its
      query re-encoded after merging the supplied pairs into it. */
  function BuildUrl<V>(u: Url, p: Params<V>, lib: RequestLib<V>, ord: IterationOrder): (r: Url)
    requires ValidOrder(p, ord)
    ensures r.base == u.base
    ensures |p.query| == 0 ==> r == u
    ensures |p.query| > 0 ==> r.rawQuery == lib.encodeQuery(MergeQuery(lib.parseQuery(u.rawQuery), p.query))
  {
    if |p.query| > 0 then
      AddAllIsMerge(lib.parseQuery(u.rawQuery), ord.query, p.query);
      u.(rawQuery := lib.encodeQuery(AddAll(lib.parseQuery(u.rawQuery), ord.query, p.query)))
    else
      u
  }

  /** `createRequest`: the body is converted first, then `http.NewRequest`
      runs; on success the header and query policies apply. */
  function CreateRequest<V>(p: Params<V>, lib: RequestLib<V>, ord: IterationOrder): (r: Result<Request, Error>)
    requires ValidOrder(p, ord)
    ensures ConvertToReader(p.body, lib.marshal).Failure? ==> r == Failure(ConvertToReader(p.body, lib.marshal).error)
    ensures ConvertToReader(p.body, lib.marshal).Success? && lib.newRequest(p.httpMethod, p.url).Failure? ==>
      r == Failure(Wrapped(CreateRequestContext, Cause(lib.newRequest(p.httpMethod, p.url).error)))
    ensures r.Success? <==>
      ConvertToReader(p.body, lib.marshal).Success? && lib.newRequest(p.httpMethod, p.url).Success?
    ensures r.Success? ==>
      && r.value.httpMethod == p.httpMethod
      && r.value.body == ConvertToReader(p.body, lib.marshal).value
      && r.value.url == BuildUrl(lib.newRequest(p.httpMethod, p.url).value, p, lib, ord)
      && r.value.header == BuildHeader(p, lib, ord)
  {
    match ConvertToReader(p.body, lib.marshal)
    case Failure(e) => Failure(e)
    case Success(payload) =>
      match lib.newRequest(p.httpMethod, p.url)
      case Failure(m) => Failure(Wrapped(CreateRequestContext, Cause(m)))
      case Success(u) => Success(Request(p.httpMethod, BuildUrl(u, p, lib, ord), BuildHeader(p, lib, ord), payload))
  }

  // ---------------------------------------------------------------------
  // ReformatMap
  // ---------------------------------------------------------------------

  /** `ReformatMap`: each list of values becomes one comma-separated string. */
  function ReformatMap(m: map<string, seq<string>>): (r: map<string, string>)
    ensures r.Keys == m.Keys
    ensures forall k :: k in m && |m[k]| == 0 ==> r[k] == ""
    ensures forall k :: k in m && |m[k]| == 1 ==> r[k] == m[k][0]
  {
    map k | k in m :: Join(m[k], ',')
  }

  /** A list of two or more values becomes the string for all but the last
      value, a comma, and the last value, whatever commas the values hold. */
  lemma ReformatMapAppend(m: map<string, seq<string>>, k: string, xs: seq<string>, x: string)
    requires |xs| > 0
    ensures ReformatMap(m[k := xs + [x]])[k] == ReformatMap(m[k := xs])[k] + [','] + x
  {
    JoinSnoc(xs, x, ',');
  }

  /** A value that holds a comma is copied as it is: ["a,b", "c"] becomes
      "a,b,c". */
  lemma ReformatMapKeepsCommas(m: map<string, seq<string>>, k: string)
    requires k in m && m[k] == ["a,b", "c"]
    ensures ReformatMap(m)[k] == "a,b,c"
  {
    assert m[k] == ["a,b"] + ["c"];
    ReformatMapAppend(m, k, ["a,b"], "c");
    assert m[k := ["a,b"] + ["c"]] == m;
  }

  /** `ReformatMap` loses nothing on lists that are nonempty and whose values
      contain no comma: splitting each string at the commas gives the list
      back. */
  lemma ReformatMapRecoverable(m: map<string, seq<string>>)
    requires forall k :: k in m ==> |m[k]| > 0 && forall i :: 0 <= i < |m[k]| ==> ',' !in m[k][i]
    ensures forall k :: k in m ==> Split(ReformatMap(m)[k], ',') == m[k]
  {
    forall k | k in m
      ensures Split(ReformatMap(m)[k], ',') == m[k]
    {
      SplitJoin(m[k], ',');
    }
  }
}
