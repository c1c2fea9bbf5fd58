/** The canonical value of a request, computed alike by the sender and the receiver. */
module Requests {
  import opened Base
  import opened Json
  import opened JsonPrint
  import opened JsonParse
  import opened JsonRoundTrip
  import opened JsonTheorems
  import opened Queries
  import opened Runtimes
  import Utf8

  // ----- the request value -----

  const JSON_KEY := Lit("json")
  const PARAMS_KEY := Lit("params")
  const GET := Lit("GET")
  const HEAD := Lit("HEAD")
  const METHOD_INVALID := Format("request_method_invalid")
  const SAFE_METHOD_BODY := Format("safe_method_body_not_supported")
  const CONTENT_TYPE_NOT_JSON := Format("capability_request_content_type_not_json")

  /** `str.upper`, exact on every character whose upper case is plain ASCII; any other
      character keeps the text outside the method pattern either way. */
  function UpperChar(c: CodePoint): Text {
    if 97 <= c <= 122 then [c - 32]
    else if c == 0xDF then Lit("SS")
    else if c == 0x131 then Lit("I")
    else if c == 0x17F then Lit("S")
    else if c == 0xFB00 then Lit("FF")
    else if c == 0xFB01 then Lit("FI")
    else if c == 0xFB02 then Lit("FL")
    else if c == 0xFB03 then Lit("FFI")
    else if c == 0xFB04 then Lit("FFL")
    else if c == 0xFB05 || c == 0xFB06 then Lit("ST")
    else [c]
  }

  function Upper(t: Text): Text {
    if t == [] then [] else UpperChar(t[0]) + Upper(t[1..])
  }

  /** The pattern `^[A-Z][A-Z0-9!#$%&'*+.^_`|~-]*$`. */
  predicate IsMethod(t: Text) {
    t != [] && 65 <= t[0] <= 90 && forall i | 0 <= i < |t| :: IsMethodChar(t[i])
  }

  predicate IsMethodChar(c: CodePoint) {
    65 <= c <= 90 || 48 <= c <= 57 || c == 33 || 35 <= c <= 39 || c == 42 || c == 43 || c == 45 || c == 46
    || 94 <= c <= 96 || c == 124 || c == 126
  }

  lemma {:induction false} UpperKeepsMethod(t: Text)
    requires forall i | 0 <= i < |t| :: IsMethodChar(t[i])
    ensures Upper(t) == t
  {
    if t != [] {
      UpperKeepsMethod(t[1..]);
    }
  }

  predicate IsSafe(method_: Text) {
    method_ == GET || method_ == HEAD
  }

  /** The value that stands for body and query of a method that may carry a body. */
  function Combine(body: Json, query: map<Text, Json>): Json {
    if query == map[] then body else Obj(map[JSON_KEY := body, PARAMS_KEY := Obj(query)])
  }

  function CanonicalRequest(rt: Runtime, method_: Text, body: Json, params: Params): Result<Json> {
    var upper := Upper(method_);
    var _ :- Need(IsMethod(upper), METHOD_INVALID);
    var query :- CanonicalQuery(rt, params);
    var _ :- Validate(body);
    if IsSafe(upper) then
      var _ :- Need(body == Null, SAFE_METHOD_BODY);
      Ok(Obj(query))
    else Ok(Combine(body, query))
  }

  /** Exactly one side has no query and its body is literally the other side's combined value. */
  predicate Masks(body: Json, query: map<Text, Json>, other: Json, otherQuery: map<Text, Json>) {
    query == map[] && otherQuery != map[] && body == Obj(map[JSON_KEY := other, PARAMS_KEY := Obj(otherQuery)])
  }

  lemma KeysDiffer()
    ensures JSON_KEY != PARAMS_KEY
  {
    assert |JSON_KEY| == 4 && |PARAMS_KEY| == 6;
  }

  lemma CombineInjective(b: Json, q: map<Text, Json>, c: Json, r: map<Text, Json>)
    ensures Combine(b, q) == Combine(c, r) <==>
      (b == c && q == r) || Masks(b, q, c, r) || Masks(c, r, b, q)
  {
    KeysDiffer();
    if q != map[] && r != map[] && Combine(b, q) == Combine(c, r) {
      var m, n := Combine(b, q).fields, Combine(c, r).fields;
      assert m[JSON_KEY] == n[JSON_KEY] && m[PARAMS_KEY] == n[PARAMS_KEY];
    }
  }

  /** Two accepted requests of one method have the same value iff they agree on the canonical
      query, and on the body where there is one, or one masks the other. */
  lemma RequestValueInjective(rt: Runtime, method_: Text, b: Json, p: Params, c: Json, r: Params)
    requires CanonicalRequest(rt, method_, b, p).Ok? && CanonicalRequest(rt, method_, c, r).Ok?
    ensures var (q, s) := (CanonicalQuery(rt, p).value, CanonicalQuery(rt, r).value);
      CanonicalRequest(rt, method_, b, p) == CanonicalRequest(rt, method_, c, r) <==>
        if IsSafe(Upper(method_)) then q == s
        else (b == c && q == s) || Masks(b, q, c, s) || Masks(c, s, b, q)
  {
    CombineInjective(b, CanonicalQuery(rt, p).value, c, CanonicalQuery(rt, r).value);
  }

  // ----- which requests have a twin -----

  /** A different accepted request of the same method has the same value. */
  ghost predicate HasTwin(rt: Runtime, method_: Text, body: Json, params: Params)
    requires CanonicalRequest(rt, method_, body, params).Ok?
  {
    exists c, r ::
      && CanonicalRequest(rt, method_, c, r) == CanonicalRequest(rt, method_, body, params)
      && (c != body || CanonicalQuery(rt, r) != CanonicalQuery(rt, params))
  }

  /** The body spells a combined value: exactly the two keys, and a canonical query under one. */
  predicate IsCombined(body: Json) {
    && body.Obj?
    && body.fields.Keys == {JSON_KEY, PARAMS_KEY}
    && body.fields[PARAMS_KEY].Obj?
    && body.fields[PARAMS_KEY].fields != map[]
    && IsCollapsedQuery(body.fields[PARAMS_KEY].fields)
  }

  /** What a sender can see before the call: a query that could stand in a body, or no query and a
      body that could stand for one. */
  predicate IsAmbiguous(body: Json, query: map<Text, Json>) {
    if query == map[] then IsCombined(body) else Valid(Obj(query))
  }

  /** An accepted request with a body has a twin exactly when it is ambiguous. */
  lemma TwinsAreExactlyTheAmbiguous(rt: Runtime, method_: Text, body: Json, params: Params)
    requires CanonicalRequest(rt, method_, body, params).Ok? && !IsSafe(Upper(method_))
    ensures HasTwin(rt, method_, body, params) <==> IsAmbiguous(body, CanonicalQuery(rt, params).value)
  {
    var query := CanonicalQuery(rt, params).value;
    if HasTwin(rt, method_, body, params) {
      TwinMakesAmbiguous(rt, method_, body, params);
    }
    if IsAmbiguous(body, query) {
      if query == map[] {
        CombinedBodyHasTwin(rt, method_, body, params);
      } else {
        QueryHasTwin(rt, method_, body, params);
      }
    }
  }

  lemma MaskedIsCombined(body: Json, other: Json, query: map<Text, Json>)
    requires Masks(body, map[], other, query) && IsCollapsedQuery(query)
    ensures IsCombined(body)
  {
    KeysDiffer();
  }

  lemma MaskingIsValid(body: Json, query: map<Text, Json>, masked: Json)
    requires Masks(body, map[], masked, query) && Valid(body)
    ensures Valid(Obj(query)) && Valid(masked)
  {
    KeysDiffer();
    assert JSON_KEY in body.fields && PARAMS_KEY in body.fields;
    assert body.fields[JSON_KEY] == masked && body.fields[PARAMS_KEY] == Obj(query);
  }

  lemma TwinMakesAmbiguous(rt: Runtime, method_: Text, body: Json, params: Params)
    requires CanonicalRequest(rt, method_, body, params).Ok? && !IsSafe(Upper(method_))
    requires HasTwin(rt, method_, body, params)
    ensures IsAmbiguous(body, CanonicalQuery(rt, params).value)
  {
    var c, r :|
      && CanonicalRequest(rt, method_, c, r) == CanonicalRequest(rt, method_, body, params)
      && (c != body || CanonicalQuery(rt, r) != CanonicalQuery(rt, params));
    RequestValueInjective(rt, method_, body, params, c, r);
    var q, s := CanonicalQuery(rt, params).value, CanonicalQuery(rt, r).value;
    AcceptedParts(rt, method_, c, r);
    if Masks(body, q, c, s) {
      MaskedIsCombined(body, c, s);
    } else {
      MaskingIsValid(c, q, body);
    }
  }

  lemma AcceptedParts(rt: Runtime, method_: Text, body: Json, params: Params)
    requires CanonicalRequest(rt, method_, body, params).Ok?
    ensures Valid(body) && CanonicalQuery(rt, params).Ok? && IsMethod(Upper(method_))
    ensures IsCollapsedQuery(CanonicalQuery(rt, params).value)
  {
    GroupedIsCollapsed(WirePairs(rt, params).value);
  }

  lemma PartsAccepted(rt: Runtime, method_: Text, body: Json, params: Params, query: map<Text, Json>)
    requires IsMethod(Upper(method_)) && !IsSafe(Upper(method_)) && Valid(body)
    requires CanonicalQuery(rt, params) == Ok(query)
    ensures CanonicalRequest(rt, method_, body, params) == Ok(Combine(body, query))
  {
  }

  lemma ParamsFor(rt: Runtime, query: map<Text, Json>) returns (params: Params)
    requires IsCollapsedQuery(query)
    ensures CanonicalQuery(rt, params) == Ok(query)
  {
    params := QueryAsParams(query, SortedKeys(query.Keys));
    CollapsedIsCanonical(rt, query);
  }

  lemma CombinedSplits(body: Json) returns (c: Json, query: map<Text, Json>)
    requires IsCombined(body)
    ensures Masks(body, map[], c, query) && IsCollapsedQuery(query)
  {
    c, query := body.fields[JSON_KEY], body.fields[PARAMS_KEY].fields;
    assert body.fields == map[JSON_KEY := c, PARAMS_KEY := Obj(query)];
  }

  lemma QueryHasTwin(rt: Runtime, method_: Text, body: Json, params: Params)
    requires CanonicalRequest(rt, method_, body, params).Ok? && !IsSafe(Upper(method_))
    requires CanonicalQuery(rt, params).value != map[] && Valid(Obj(CanonicalQuery(rt, params).value))
    ensures HasTwin(rt, method_, body, params)
  {
    var c := Combine(body, CanonicalQuery(rt, params).value);
    CombinedIsValid(body, CanonicalQuery(rt, params).value);
    NoParams(rt);
    assert CanonicalRequest(rt, method_, c, []) == Ok(c);
  }

  lemma NoParams(rt: Runtime)
    ensures CanonicalQuery(rt, []) == Ok(map[])
  {
    assert KeysOf([]) == {};
  }

  lemma CombinedIsValid(body: Json, query: map<Text, Json>)
    requires Valid(body) && Valid(Obj(query))
    ensures Valid(Combine(body, query))
  {
    var combined := map[JSON_KEY := body, PARAMS_KEY := Obj(query)];
    assert forall k | k in combined :: Utf8.Encodable(k) && Valid(combined[k]) by {
      assert Utf8.Encodable(JSON_KEY) && Utf8.Encodable(PARAMS_KEY);
    }
  }

  lemma CombinedBodyHasTwin(rt: Runtime, method_: Text, body: Json, params: Params)
    requires CanonicalRequest(rt, method_, body, params).Ok? && !IsSafe(Upper(method_))
    requires CanonicalQuery(rt, params).value == map[] && IsCombined(body)
    ensures HasTwin(rt, method_, body, params)
  {
    AcceptedParts(rt, method_, body, params);
    var c, query := CombinedSplits(body);
    MaskingIsValid(body, query, c);
    var r := ParamsFor(rt, query);
    PartsAccepted(rt, method_, c, r, query);
  }

  const POST := Lit("POST")

  lemma PostIsMethod()
    ensures Upper(POST) == POST && IsMethod(POST) && !IsSafe(POST)
  {
    assert |POST| == 4 && |GET| == 3 && POST[0] != HEAD[0];
    UpperKeepsMethod(POST);
  }

  /** The value does not determine the request: a POST without a body and with the query `a=1`, and
      a POST without a query whose body spells that, are both accepted and have one value. */
  lemma MaskingExists(rt: Runtime)
    ensures var query := [(Lit("a"), One(Plain(Lit("1"))))];
      var body := Obj(map[JSON_KEY := Null, PARAMS_KEY := Obj(map[Lit("a") := Str(Lit("1"))])]);
      CanonicalRequest(rt, POST, Null, query) == CanonicalRequest(rt, POST, body, []) == Ok(body)
  {
    var pairs := [(Lit("a"), Lit("1"))];
    var query := map[Lit("a") := Str(Lit("1"))];
    PostIsMethod();
    SingleQuery(rt, Lit("a"), Lit("1"));
    NoParams(rt);
    assert Lit("a") in query && query != map[];
    assert Valid(Str(Lit("1"))) && Utf8.Encodable(Lit("a"));
    assert Valid(Obj(query));
    CombinedIsValid(Null, query);
  }

  lemma SingleQuery(rt: Runtime, key: Text, value: Text)
    ensures CanonicalQuery(rt, [(key, One(Plain(value)))]) == Ok(map[key := Str(value)])
  {
    var pairs := [(key, value)];
    PlainPairs(rt, pairs);
    assert AsParams(pairs) == [(key, One(Plain(value)))];
    assert pairs[..0] == [] && ValuesFor(pairs[..0], key) == [];
    assert ValuesFor(pairs, key) == [value];
    assert pairs[0] in pairs;
    assert Grouped(pairs) == map[key := Str(value)];
  }

  // ----- the receiver -----

  /** One HTTP request as the framework hands it over. */
  datatype Request = Request(
    verb: Text,
    headers: seq<(Text, Text)>,
    body: Bytes,
    query: Pairs,
    rawPath: Option<Bytes>)

  /** `headers.getlist`: names compare without regard to case. */
  function HeaderValues(headers: seq<(Text, Text)>, name: Text): seq<Text> {
    if headers == [] then []
    else (if AsciiLower(headers[0].0) == AsciiLower(name) then [headers[0].1] else [])
         + HeaderValues(headers[1..], name)
  }

  function UpTo(t: Text, c: CodePoint): Text {
    if t == [] || t[0] == c then [] else [t[0]] + UpTo(t[1..], c)
  }

  function MediaType(headers: seq<(Text, Text)>): Text {
    var values := HeaderValues(headers, Lit("content-type"));
    AsciiLower(Strip(UpTo(if values == [] then [] else values[0], 59)))
  }

  predicate IsJsonMediaType(t: Text) {
    t == Lit("application/json") || (|t| >= 5 && t[|t| - 5..] == Lit("+json"))
  }

  function ReadBody(rt: Runtime, request: Request): Result<Json> {
    if request.body == [] then Ok(Null)
    else
      var _ :- Need(IsJsonMediaType(MediaType(request.headers)), CONTENT_TYPE_NOT_JSON);
      StrictLoads(rt, request.body)
  }

  /** `reconstruct_fastapi_request`. */
  function Reconstruct(rt: Runtime, request: Request): Result<Json> {
    var upper := Upper(request.verb);
    var _ :- Need(!(IsSafe(upper) && request.body != []), SAFE_METHOD_BODY);
    var body :- ReadBody(rt, request);
    CanonicalRequest(rt, upper, body, AsParams(request.query))
  }

  // ----- what is refused, and how -----

  /** The sender's checks in their order, each with its code, and the value of what passes. */
  lemma CanonicalRequestSpelledOut(rt: Runtime, method_: Text, body: Json, params: Params)
    ensures var r, upper := CanonicalRequest(rt, method_, body, params), Upper(method_);
      var query, safe := CanonicalQuery(rt, params), upper == Lit("GET") || upper == Lit("HEAD");
      && (!IsMethod(upper) ==> r == Err(Format("request_method_invalid")))
      && (IsMethod(upper) && query.Err? ==> r == Err(query.error))
      && (IsMethod(upper) && query.Ok? && Validate(body).Err? ==> r == Err(Validate(body).error))
      && (IsMethod(upper) && query.Ok? && Valid(body) ==>
            r == if safe then if body == Null then Ok(Obj(query.value)) else Err(Format("safe_method_body_not_supported"))
                 else if query.value == map[] then Ok(body)
                 else Ok(Obj(map[Lit("json") := body, Lit("params") := Obj(query.value)])))
  {
  }

  /** The receiver's: no body with a safe method, JSON bodies only, strictly read; then the sender's own. */
  lemma ReconstructSpelledOut(rt: Runtime, request: Request)
    ensures var r, upper := Reconstruct(rt, request), Upper(request.verb);
      var safe := upper == Lit("GET") || upper == Lit("HEAD");
      && (safe && request.body != [] ==> r == Err(Format("safe_method_body_not_supported")))
      && (request.body == [] ==> r == CanonicalRequest(rt, upper, Null, AsParams(request.query)))
      && (!safe && request.body != [] && !IsJsonMediaType(MediaType(request.headers)) ==>
            r == Err(Format("capability_request_content_type_not_json")))
      && (!safe && request.body != [] && IsJsonMediaType(MediaType(request.headers)) ==>
            var body := StrictLoads(rt, request.body);
            r == if body.Err? then body else CanonicalRequest(rt, upper, body.value, AsParams(request.query)))
  {
  }

  lemma {:induction false} UpToSemicolon(a: Text, p: Text)
    requires 59 !in a
    ensures UpTo(a + ([59] + p), 59) == a && UpTo(a, 59) == a
  {
    if a == [] {
      assert a + ([59] + p) == [59] + p;
    } else {
      DropAppend(a, 1, [59] + p);
      assert a == [a[0]] + a[1..];
      UpToSemicolon(a[1..], p);
    }
  }

  /** The media type is what stands before the first semicolon of the first header, stripped and in
      lower case. */
  lemma MediaTypeIsExact(headers: seq<(Text, Text)>, a: Text, p: Text)
    requires 59 !in a && HeaderValues(headers, Lit("content-type")) != []
    ensures HeaderValues(headers, Lit("content-type"))[0] == a + ([59] + p) ==>
      MediaType(headers) == AsciiLower(Strip(a))
    ensures HeaderValues(headers, Lit("content-type"))[0] == a ==> MediaType(headers) == AsciiLower(Strip(a))
  {
    UpToSemicolon(a, p);
  }

  lemma NoMediaType(headers: seq<(Text, Text)>)
    requires HeaderValues(headers, Lit("content-type")) == []
    ensures MediaType(headers) == [] && !IsJsonMediaType([])
  {
    assert |Lit("application/json")| == 16;
  }

  lemma JsonMediaTypes(t: Text)
    ensures IsJsonMediaType(t) <==> t == Lit("application/json") || exists a :: t == a + Lit("+json")
  {
    var suffix := Lit("+json");
    if |t| >= 5 && t[|t| - 5..] == suffix {
      assert t == t[..|t| - 5] + suffix;
    }
    if a :| t == a + suffix {
      assert t[|t| - 5..] == suffix;
    }
  }

  /** The request on the wire carries this method, body and query: any JSON text of the body will
      do, and no body at all stands for null. */
  ghost predicate Carries(rt: Runtime, request: Request, method_: Text, body: Json, pairs: Pairs) {
    && Upper(request.verb) == Upper(method_)
    && request.query == pairs
    && (request.body == [] ==> body == Null)
    && (request.body != [] ==>
          && !IsSafe(Upper(method_))
          && IsJsonMediaType(MediaType(request.headers))
          && StrictLoads(rt, request.body) == Ok(body))
  }

  /** Sender and receiver agree: whatever request the sender accepts, the receiver rebuilds the
      same value from it. */
  lemma ReceiverAgrees(rt: Runtime, method_: Text, body: Json, params: Params, request: Request)
    requires CanonicalRequest(rt, method_, body, params).Ok?
    requires Carries(rt, request, method_, body, WirePairs(rt, params).value)
    ensures Reconstruct(rt, request) == CanonicalRequest(rt, method_, body, params)
  {
    UpperKeepsMethod(Upper(method_));
    FlatteningIsInvisible(rt, params);
  }

  /** The sender's own form of the body, its canonical bytes, is such a text. */
  lemma CanonicalBodyIsCarried(rt: Runtime, method_: Text, body: Json, params: Params, request: Request)
    requires FloatsRoundTrip(rt)
    requires CanonicalRequest(rt, method_, body, params).Ok?
    requires Upper(request.verb) == Upper(method_) && request.query == WirePairs(rt, params).value
    requires body == Null ==> request.body == []
    requires body != Null ==>
      CanonicalBytes(rt, body) == Ok(request.body) && IsJsonMediaType(MediaType(request.headers))
    ensures Carries(rt, request, method_, body, WirePairs(rt, params).value)
  {
    if body != Null {
      RoundTrip(rt, body);
      assert StrictLoads(rt, request.body) == Ok(body);
    }
  }
}
