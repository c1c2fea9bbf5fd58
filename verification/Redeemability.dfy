/** Which accepted grants can be redeemed: exactly those that some HTTP request can present. */
module Redeemability {
  import opened Base
  import opened Json
  import opened JsonPrint
  import opened JsonParse
  import opened JsonRoundTrip
  import opened JsonTheorems
  import opened Runtimes
  import opened Queries
  import opened Requests
  import opened Claims
  import opened Verifiers
  import opened VerifierTheorems
  import opened RequiredClaims
  import opened Dependencies
  import opened Presenting
  import opened EndToEnd
  import opened TokenBinding
  import Utf8

  /** A request by this method can have this value: any value stands in a body, and a method without
      one leaves the canonical queries. */
  predicate IsReceivable(verb: Text, value: Json) {
    IsSafe(verb) ==> value.Obj? && IsCollapsedQuery(value.fields)
  }

  /** Claims, path and value can all travel in one request. */
  predicate IsRedeemable(terms: GrantClaims, value: Json) {
    && IsPresentable(terms)
    && IsWirePath(terms.transport.path)
    && IsReceivable(terms.transport.verb, value)
  }

  // ----- the value of what was received -----

  lemma ReceivedIsReceivable(rt: Runtime, request: Request)
    requires Reconstruct(rt, request).Ok?
    ensures IsReceivable(Upper(request.verb), Reconstruct(rt, request).value)
  {
    var upper := Upper(request.verb);
    UpperTwice(request.verb);
    GroupedIsCollapsed(WirePairs(rt, AsParams(request.query)).value);
  }

  /** Parts of a request with this value: a body and parameters. */
  lemma PartsFor(rt: Runtime, verb: Text, value: Json) returns (body: Json, params: Params)
    requires IsMethod(verb) && Upper(verb) == verb && Valid(value) && IsReceivable(verb, value)
    ensures CanonicalRequest(rt, verb, body, params) == Ok(value)
    ensures IsSafe(verb) ==> body == Null
  {
    if IsSafe(verb) {
      body := Null;
      params := ParamsFor(rt, value.fields);
    } else {
      body, params := value, [];
      NoParams(rt);
      PartsAccepted(rt, verb, body, params, map[]);
    }
  }

  // ----- the request that presents a grant -----

  const CONTENT_TYPE := Lit("content-type")
  const JSON_TYPE := Lit("application/json")

  function RequestHeaders(token: Text, terms: GrantClaims): seq<(Text, Text)> {
    GrantHeaders(token, terms) + [(CONTENT_TYPE, JSON_TYPE)]
  }

  lemma RequestHeaderLengths(token: Text, terms: GrantClaims)
    ensures forall i, j | 0 <= i < j < 8 :: |RequestHeaders(token, terms)[i].0| != |RequestHeaders(token, terms)[j].0|
  {
    HeaderNameLengths(token, terms);
    assert |CONTENT_TYPE| == 12;
    assert |GRANT_HEADER| == 27 && |GRANT_ID_HEADER| == 30 && |TASK_ID_HEADER| == 9 && |TRACE_ID_HEADER| == 10;
    assert |ACTION_ID_HEADER| == 19 && |ATTEMPT_ID_HEADER| == 22 && |IDEMPOTENCY_HEADER| == 15;
  }

  lemma RequestHeadersSend(token: Text, terms: GrantClaims)
    ensures SendsGrant(RequestHeaders(token, terms), token, terms)
    ensures HeaderValues(RequestHeaders(token, terms), CONTENT_TYPE) == [JSON_TYPE]
  {
    var headers := RequestHeaders(token, terms);
    RequestHeaderLengths(token, terms);
    OnlyOne(headers, 0);
    OnlyOne(headers, 7);
    forall i | 0 <= i < 6 ensures HeaderValues(headers, BoundHeaders(terms)[i].0) == [BoundHeaders(terms)[i].1] {
      assert headers[i + 1] == BoundHeaders(terms)[i];
      OnlyOne(headers, i + 1);
    }
  }

  lemma {:induction false} UpToAbsent(t: Text, c: CodePoint)
    requires c !in t
    ensures UpTo(t, c) == t
  {
    if t != [] {
      assert t == [t[0]] + t[1..];
      UpToAbsent(t[1..], c);
    }
  }

  lemma JsonTypeIsJson(headers: seq<(Text, Text)>)
    requires HeaderValues(headers, CONTENT_TYPE) == [JSON_TYPE]
    ensures IsJsonMediaType(MediaType(headers))
  {
    JsonTypeCharacters();
    PlainMediaType(JSON_TYPE);
    assert MediaType(headers) == AsciiLower(Strip(UpTo(JSON_TYPE, 59)));
  }

  lemma JsonTypeCharacters()
    ensures 59 !in JSON_TYPE && IsTrimmed(JSON_TYPE)
    ensures forall i | 0 <= i < |JSON_TYPE| :: !(65 <= JSON_TYPE[i] <= 90)
  {
  }

  lemma PlainMediaType(t: Text)
    requires 59 !in t && IsTrimmed(t) && forall i | 0 <= i < |t| :: !(65 <= t[i] <= 90)
    ensures AsciiLower(Strip(UpTo(t, 59))) == t
  {
    UpToAbsent(t, 59);
    StripFixesTrimmed(t);
    LowerStays(t);
  }

  lemma LowerStays(t: Text)
    requires forall i | 0 <= i < |t| :: !(65 <= t[i] <= 90)
    ensures AsciiLower(t) == t
  {
  }

  /** The request of this method and path with this body and query that presents the grant. */
  function RequestFor(
    rt: Runtime, token: Text, terms: GrantClaims, body: Json, pairs: Pairs): Request
    requires Utf8.Encodable(terms.transport.path)
    requires body != Null ==> CanonicalBytes(rt, body).Ok?
  {
    Request(
      terms.transport.verb,
      RequestHeaders(token, terms),
      if body == Null then [] else CanonicalBytes(rt, body).value,
      pairs,
      Some(Utf8.Encode(terms.transport.path)))
  }

  lemma RequestForCarries(rt: Runtime, token: Text, terms: GrantClaims, body: Json, params: Params)
    requires FloatsRoundTrip(rt) && Utf8.Encodable(terms.transport.path)
    requires CanonicalRequest(rt, terms.transport.verb, body, params).Ok?
    ensures CanonicalBytes(rt, body).Ok?
    ensures Reconstruct(rt, RequestFor(rt, token, terms, body, WirePairs(rt, params).value))
         == CanonicalRequest(rt, terms.transport.verb, body, params)
  {
    AcceptedParts(rt, terms.transport.verb, body, params);
    CanonicalBytesDefined(rt, body);
    var request := RequestFor(rt, token, terms, body, WirePairs(rt, params).value);
    RequestHeadersSend(token, terms);
    JsonTypeIsJson(request.headers);
    CanonicalBodyIsCarried(rt, terms.transport.verb, body, params, request);
    ReceiverAgrees(rt, terms.transport.verb, body, params, request);
  }

  // ----- exactly the redeemable grants -----

  /** Some request over the wire that presents this token and has this value is let through. */
  ghost predicate CanReach(
    rt: Runtime, dependency: Dependency, auth: AuthSource, now: Double, token: Text, value: Json)
  {
    exists request: Request ::
      && IsWireHeaders(request.headers)
      && SingleHeader(request.headers, GRANT_HEADER) == Ok(token)
      && Reconstruct(rt, request) == Ok(value)
      && Prepare(rt, Inbound(dependency, request, now, auth)).Ready?
  }

  /** A token that a verifier accepts can only ever be let through if its six bound claims have no
      outer white space and its path can stand in a request: the schema lets more through than the
      header checks and the raw path do. */
  lemma LetThroughFits(rt: Runtime, v: Verifier, token: Text, seen: Presented, call: Inbound)
    requires FloatsRoundTrip(rt) && Verify(rt, v, token, seen).Ok?
    requires SingleHeader(call.request.headers, GRANT_HEADER) == Ok(token) && Prepare(rt, call).Ready?
    ensures var terms := Verify(rt, v, token, seen).value.terms;
      && HasTrimmedClaims(terms)
      && (IsWireHeaders(call.request.headers) ==> IsPresentable(terms))
      && IsWirePath(terms.transport.path)
  {
    ReadySharesGrant(rt, v, token, seen, call);
    ReadyIsTrimmed(rt, call);
    ReadyHasWirePath(rt, call);
  }

  /** A request that is let through has the value the grant was accepted for, or an explicit collision
      with it. */
  lemma LetThroughHasValue(rt: Runtime, v: Verifier, token: Text, seen: Presented, call: Inbound)
    requires FloatsRoundTrip(rt) && Verify(rt, v, token, seen).Ok?
    requires SingleHeader(call.request.headers, GRANT_HEADER) == Ok(token) && Prepare(rt, call).Ready?
    ensures Reconstruct(rt, call.request).Ok?
    ensures Reconstruct(rt, call.request) == Ok(seen.request)
         || ValuesCollide(rt, seen.request, Reconstruct(rt, call.request).value)
    ensures IsReceivable(Verify(rt, v, token, seen).value.terms.transport.verb, Reconstruct(rt, call.request).value)
  {
    ReadySharesGrant(rt, v, token, seen, call);
    var payload, signature := AcceptedIsGenuine(rt, v, token, seen);
    ReadyRebuilds(rt, call);
    var value := Reconstruct(rt, call.request).value;
    SameHashSameValue(rt, seen.request, value, Verify(rt, v, token, seen).value.terms.requestHash);
  }

  lemma ReadyRebuilds(rt: Runtime, call: Inbound)
    requires FloatsRoundTrip(rt) && Prepare(rt, call).Ready?
    ensures Reconstruct(rt, call.request).Ok?
    ensures var (terms, value) := (Prepare(rt, call).grant.terms, Reconstruct(rt, call.request).value);
      IsHashOf(rt, terms.requestHash, value) && IsReceivable(terms.transport.verb, value)
  {
    var grant, redemption := Prepare(rt, call).grant, Prepare(rt, call).redemption;
    ReadyIsEntitled(rt, call, grant, redemption);
    var token := SingleHeader(call.request.headers, GRANT_HEADER).value;
    var bound := CollectHeaders(call.request.headers, BOUND_HEADER_NAMES).value;
    var payload, signature := VerifiedRequestIsBound(rt, call, token, bound, grant, redemption.transport);
    SeenVerb(call.dependency, call.request);
    ReceivedIsReceivable(rt, call.request);
  }

  lemma SeenVerb(dependency: Dependency, request: Request)
    requires ReceiverTransport(dependency, request).Ok?
    ensures ReceiverTransport(dependency, request).value.verb == Upper(request.verb)
  {
  }

  /** The route is configured for this grant: same transport fields, its required claims are held, and
      the receiver's name and the authority's headers are in order. */
  ghost predicate Serves(
    rt: Runtime, dependency: Dependency, auth: AuthSource, required: map<Text, Json>, grant: VerifiedGrant)
  {
    && IsRouteOf(dependency, grant.terms.transport)
    && SnapshotOf(rt, required) == Ok(dependency.required)
    && CheckRequired(rt, grant, dependency.required).Ok?
    && 1 <= |dependency.receiverId| <= 200
    && IsGoodSource(auth)
  }

  lemma WireRequestHeaders(token: Text, terms: GrantClaims)
    requires IsFieldText(token) && IsPresentable(terms)
    ensures IsWireHeaders(RequestHeaders(token, terms))
  {
    var headers := RequestHeaders(token, terms);
    forall i | 0 <= i < 8 ensures IsFieldText(headers[i].1) {
      if 1 <= i < 7 {
        assert headers[i] == BoundHeaders(terms)[i - 1];
      }
    }
  }

  /** The same claims authorize the rebuilt request. */
  lemma StillAuthorizes(
    rt: Runtime, verifier: Verifier, payload: map<Text, Json>, terms: GrantClaims, seen: Presented,
    headers: map<Text, Text>)
    requires Authorizes(rt, verifier, payload, terms, seen)
    requires forall i | 0 <= i < 6 :: HeaderAgrees(headers, BoundHeaders(terms)[i])
    ensures Authorizes(rt, verifier, payload, terms,
      Presented(seen.request, DumpTransport(terms.transport), headers, seen.now))
  {
    StillBound(rt, terms, seen, headers);
  }

  lemma StillBound(rt: Runtime, terms: GrantClaims, seen: Presented, headers: map<Text, Text>)
    requires Bound(rt, terms, seen)
    requires forall i | 0 <= i < 6 :: HeaderAgrees(headers, BoundHeaders(terms)[i])
    ensures Bound(rt, terms, Presented(seen.request, DumpTransport(terms.transport), headers, seen.now))
  {
    BoundIsRead(rt, terms, seen);
    ReadDumpedTransport(terms.transport);
    BoundIsRead(rt, terms, Presented(seen.request, DumpTransport(terms.transport), headers, seen.now));
  }

  /** A request that rebuilds to what the grant was accepted for, and repeats its claims, is rightful. */
  lemma PresentingIsRightful(
    rt: Runtime, call: Inbound, required: map<Text, Json>, token: Text, seen: Presented,
    payload: map<Text, Json>, signature: Bytes, terms: GrantClaims)
    requires FloatsRoundTrip(rt) && call.now == seen.now
    requires Genuine(rt, call.dependency.verifier.publicKey, token, payload, signature)
    requires Authorizes(rt, call.dependency.verifier, payload, terms, seen)
    requires forall k | k in required :: k in payload && payload[k] == required[k]
    requires PresentsGrant(call.request.headers, token, terms)
    requires Reconstruct(rt, call.request) == Ok(seen.request)
    requires ReceiverTransport(call.dependency, call.request) == Ok(terms.transport)
    ensures Rightful(rt, call, required, terms, payload, signature)
  {
    HeadersAgree(call.request.headers, token, terms);
    StillAuthorizes(rt, call.dependency.verifier, payload, terms, seen,
                    CollectHeaders(call.request.headers, BOUND_HEADER_NAMES).value);
  }

  /** The request of a redeemable grant: it rebuilds to the value, by the route, with the claims. */
  lemma RequestIsFound(rt: Runtime, dependency: Dependency, token: Text, terms: GrantClaims, value: Json)
    returns (request: Request)
    requires FloatsRoundTrip(rt) && Valid(value) && IsRedeemable(terms, value)
    requires ValidTransport(terms.transport) && IsRouteOf(dependency, terms.transport)
    requires token != [] && IsTrimmed(token) && IsFieldText(token)
    requires forall i | 0 <= i < 6 :: BoundHeaders(terms)[i].1 != []
    ensures IsWireHeaders(request.headers) && PresentsGrant(request.headers, token, terms)
    ensures Reconstruct(rt, request) == Ok(value)
    ensures ReceiverTransport(dependency, request) == Ok(terms.transport)
  {
    AsciiEncodes(terms.transport.path);
    UpperKeepsMethod(terms.transport.verb);
    var body, params := PartsFor(rt, terms.transport.verb, value);
    AcceptedParts(rt, terms.transport.verb, body, params);
    CanonicalBytesDefined(rt, body);
    request := RequestFor(rt, token, terms, body, WirePairs(rt, params).value);
    RequestForCarries(rt, token, terms, body, params);
    RouteIsSeen(dependency, request, terms.transport);
    WireRequestHeaders(token, terms);
    RequestHeadersSend(token, terms);
    SentIsPresented(request.headers, token, terms);
  }

  lemma RedeemableReaches(
    rt: Runtime, dependency: Dependency, auth: AuthSource, required: map<Text, Json>, token: Text, seen: Presented)
    requires FloatsRoundTrip(rt) && Verify(rt, dependency.verifier, token, seen).Ok?
    requires Serves(rt, dependency, auth, required, Verify(rt, dependency.verifier, token, seen).value)
    requires IsRedeemable(Verify(rt, dependency.verifier, token, seen).value.terms, seen.request)
    ensures CanReach(rt, dependency, auth, seen.now, token, seen.request)
  {
    var grant := Verify(rt, dependency.verifier, token, seen).value;
    var payload, signature := AcceptedIsGenuine(rt, dependency.verifier, token, seen);
    AsciiIsTrimmed(PayloadBytes(rt, payload), signature);
    SoundIsRead(rt, payload, grant.terms);
    TermsAreFilled(rt, payload);
    CanonicalBytesDefined(rt, seen.request);
    var request := RequestIsFound(rt, dependency, token, grant.terms, seen.request);
    var call := Inbound(dependency, request, seen.now, auth);
    RequiredAreSigned(rt, grant, payload, required, dependency.required);
    ResolveAuthIsExact(auth);
    PresentingIsRightful(rt, call, required, token, seen, payload, signature, grant.terms);
    RightfulIsReady(rt, call, required, grant.terms, payload, signature);
  }

  /** A grant that a verifier accepts for a value can be redeemed for it, at a route that serves it, iff
      its six bound claims can stand in headers, its path in a request, and its value is one that a
      request by its method can have. */
  lemma RedeemableExactly(
    rt: Runtime, dependency: Dependency, auth: AuthSource, required: map<Text, Json>, token: Text, seen: Presented)
    requires FloatsRoundTrip(rt) && Verify(rt, dependency.verifier, token, seen).Ok?
    requires Serves(rt, dependency, auth, required, Verify(rt, dependency.verifier, token, seen).value)
    ensures CanReach(rt, dependency, auth, seen.now, token, seen.request)
       <==> IsRedeemable(Verify(rt, dependency.verifier, token, seen).value.terms, seen.request)
  {
    if IsRedeemable(Verify(rt, dependency.verifier, token, seen).value.terms, seen.request) {
      RedeemableReaches(rt, dependency, auth, required, token, seen);
    }
    if request: Request :|
      && IsWireHeaders(request.headers)
      && SingleHeader(request.headers, GRANT_HEADER) == Ok(token)
      && Reconstruct(rt, request) == Ok(seen.request)
      && Prepare(rt, Inbound(dependency, request, seen.now, auth)).Ready?
    {
      var call := Inbound(dependency, request, seen.now, auth);
      LetThroughFits(rt, dependency.verifier, token, seen, call);
      LetThroughHasValue(rt, dependency.verifier, token, seen, call);
    }
  }
}
