/** Concrete runs of the model: a token that is accepted, one that never reaches the authority, a
    request that is let through without headers for the authority, and a run in which a handler runs. */
module Witnesses {
  import opened Base
  import opened Json
  import opened JsonPrint
  import opened JsonParse
  import opened JsonRoundTrip
  import opened JsonTheorems
  import opened Hashing
  import opened Runtimes
  import opened Queries
  import opened Requests
  import opened Claims
  import opened Verifiers
  import opened VerifierTheorems
  import opened Issuers
  import opened RequiredClaims
  import opened Dependencies
  import opened Redeemers
  import opened Presenting
  import opened Protocol
  import opened Endpoint
  import opened EndToEnd
  import opened TokenBinding
  import opened Redeemability
  import opened Assumptions
  import Utf8

  // ----- sample claims -----

  const WORD := Lit("a")
  const ROOT := Lit("/")
  const START: FiniteDouble := Finite(false, 0, -1074)
  const END: FiniteDouble := Finite(false, 1, -1074)
  const TRUST := Verifier(WORD, WORD, WORD, [])

  function RouteTo(path: Text): Transport {
    Transport(WORD, WORD, GET, path, None, None)
  }

  function SampleTerms(grantId: Text, path: Text, requestHash: Text): GrantClaims {
    GrantClaims(
      grantId, WORD, WORD, WORD, WORD, WORD, WORD, requestHash, RouteTo(path), START, START, END, WORD, WORD, [])
  }

  function HeadersOf(terms: GrantClaims): map<Text, Text> {
    map[
      GRANT_ID_HEADER := terms.grantId,
      TASK_ID_HEADER := terms.taskId,
      TRACE_ID_HEADER := terms.traceId,
      ACTION_ID_HEADER := terms.actionId,
      ATTEMPT_ID_HEADER := terms.attemptId,
      IDEMPOTENCY_HEADER := terms.idempotencyKey]
  }

  lemma HeadersOfAgree(terms: GrantClaims, i: nat)
    requires i < 6 && BoundHeaders(terms)[i].1 != []
    ensures HeaderAgrees(HeadersOf(terms), BoundHeaders(terms)[i])
  {
    assert |GRANT_ID_HEADER| == 30 && |TASK_ID_HEADER| == 9 && |TRACE_ID_HEADER| == 10;
    assert |ACTION_ID_HEADER| == 19 && |ATTEMPT_ID_HEADER| == 22 && |IDEMPOTENCY_HEADER| == 15;
  }

  /** A short name without surrogates. */
  predicate IsSampleName(t: Text) {
    1 <= |t| <= 200 && IsAscii(t)
  }

  predicate IsSamplePath(t: Text) {
    IsPath(t) && IsAscii(t)
  }

  lemma RouteIsValidTransport(path: Text)
    requires IsSamplePath(path)
    ensures ValidTransport(RouteTo(path))
  {
  }

  lemma SampleIsWellFormed(grantId: Text, path: Text, requestHash: Text)
    requires IsSampleName(grantId) && IsSamplePath(path) && IsHash(requestHash)
    ensures WellFormedTerms(SampleTerms(grantId, path, requestHash))
  {
    RouteIsValidTransport(path);
  }

  lemma AsciiIsValid(t: Text)
    requires IsAscii(t)
    ensures Valid(Str(t))
  {
  }

  lemma RouteNamesAreAscii()
    ensures IsAscii(TYPE_FIELD) && IsAscii(SERVICE_FIELD) && IsAscii(METHOD_FIELD) && IsAscii(PATH_FIELD)
    ensures IsAscii(AUTH_PROFILE_FIELD) && IsAscii(TLS_ALIAS_PROFILE_FIELD)
  {
  }

  lemma RouteTextsAreAscii()
    ensures IsAscii(WORD) && IsAscii(GET)
  {
  }

  /** A dumped transport is valid JSON when its texts are. */
  lemma DumpIsValid(t: Transport)
    requires Valid(Str(t.kind)) && Valid(Str(t.service)) && Valid(Str(t.verb)) && Valid(Str(t.path))
    requires t.authProfile == None && t.tlsAliasProfile == None
    ensures Valid(DumpTransport(t))
  {
    RouteNamesAreAscii();
    var v := DumpTransport(t);
    forall k | k in v.fields ensures Utf8.Encodable(k) && Valid(v.fields[k]) {
      AsciiIsValid(k);
    }
  }

  lemma RouteIsValid(path: Text)
    requires IsSamplePath(path)
    ensures Valid(DumpTransport(RouteTo(path)))
  {
    RouteTextsAreAscii();
    AsciiIsValid(WORD);
    AsciiIsValid(GET);
    AsciiIsValid(path);
    DumpIsValid(RouteTo(path));
  }

  lemma FirstNamesAreAscii(terms: GrantClaims, i: nat)
    requires i < 9
    ensures IsAscii(TermFields(terms)[i].0)
  {
  }

  lemma LastNamesAreAscii(terms: GrantClaims, i: nat)
    requires 9 <= i < 17
    ensures IsAscii(TermFields(terms)[i].0)
  {
  }

  lemma TextsAreAscii(grantId: Text, path: Text, requestHash: Text, i: nat)
    requires IsSampleName(grantId) && IsHash(requestHash) && i < 17
    ensures var v := TermFields(SampleTerms(grantId, path, requestHash))[i].1;
      || v == DumpTransport(RouteTo(path))
      || v == Int(1) || v == Float(START) || v == Float(END)
      || (v.Str? && IsAscii(v.t))
  {
  }

  lemma SampleFieldsAreValid(grantId: Text, path: Text, requestHash: Text, i: nat)
    requires IsSampleName(grantId) && IsSamplePath(path) && IsHash(requestHash) && i < 17
    ensures Utf8.Encodable(TermFields(SampleTerms(grantId, path, requestHash))[i].0)
    ensures Valid(TermFields(SampleTerms(grantId, path, requestHash))[i].1)
  {
    if i < 9 {
      FirstNamesAreAscii(SampleTerms(grantId, path, requestHash), i);
    } else {
      LastNamesAreAscii(SampleTerms(grantId, path, requestHash), i);
    }
    TextsAreAscii(grantId, path, requestHash, i);
    RouteIsValid(path);
  }

  lemma SampleClaimsAreValid(grantId: Text, path: Text, requestHash: Text)
    requires IsSampleName(grantId) && IsSamplePath(path) && IsHash(requestHash)
    ensures Valid(Obj(ClaimsOf(SampleTerms(grantId, path, requestHash), map[])))
  {
    var fields := TermFields(SampleTerms(grantId, path, requestHash));
    var claims := ClaimsOf(SampleTerms(grantId, path, requestHash), map[]);
    forall k | k in claims ensures Utf8.Encodable(k) && Valid(claims[k]) {
      var i := DictSource(fields, k);
      SampleFieldsAreValid(grantId, path, requestHash, i);
    }
  }

  lemma RepeatedIsBound(rt: Runtime, terms: GrantClaims, seen: Presented)
    requires IsHashOf(rt, terms.requestHash, seen.request)
    requires ValidTransport(terms.transport) && seen.transport == DumpTransport(terms.transport)
    requires seen.headers == HeadersOf(terms)
    requires forall i | 0 <= i < 6 :: BoundHeaders(terms)[i].1 != []
    ensures Bound(rt, terms, seen)
  {
    ReadDumpedTransport(terms.transport);
    forall i | 0 <= i < 6 ensures HeaderAgrees(seen.headers, BoundHeaders(terms)[i]) {
      HeadersOfAgree(terms, i);
    }
    BoundIsRead(rt, terms, seen);
  }

  lemma SampleIsTrusted(grantId: Text, path: Text, hash: Text)
    ensures Trusted(TRUST, SampleTerms(grantId, path, hash), START)
  {
  }

  lemma SampleIsFilled(grantId: Text, path: Text, hash: Text)
    requires IsSampleName(grantId)
    ensures forall i | 0 <= i < 6 :: BoundHeaders(SampleTerms(grantId, path, hash))[i].1 != []
  {
  }

  // ----- tokens -----

  lemma HashExists(rt: Runtime, value: Json) returns (hash: Text)
    requires FloatsRoundTrip(rt) && Valid(value)
    ensures IsHash(hash) && IsHashOf(rt, hash, value)
  {
    CanonicalBytesDefined(rt, value);
    hash := Sha256Hex(rt, CanonicalBytes(rt, value).value);
  }

  /** The sample token is accepted for a request with this value, whatever its grant is called and
      whatever its path. */
  lemma SampleIsAccepted(
    rt: Runtime, sign: Bytes -> Bytes, grantId: Text, path: Text, value: Json)
    returns (token: Text, seen: Presented, hash: Text, grantHash: Text)
    requires FloatsRoundTrip(rt) && SignsFor(rt, sign, TRUST.publicKey)
    requires IsSampleName(grantId) && IsSamplePath(path) && Valid(value)
    ensures Verify(rt, TRUST, token, seen).Ok? && seen.request == value
    ensures Verify(rt, TRUST, token, seen).value.terms == SampleTerms(grantId, path, hash).(grantHash := grantHash)
  {
    hash := HashExists(rt, value);
    var terms := SampleTerms(grantId, path, hash);
    seen := Presented(value, DumpTransport(RouteTo(path)), HeadersOf(terms), START);
    RouteIsValidTransport(path);
    SampleIsWellFormed(grantId, path, hash);
    SampleIsFilled(grantId, path, hash);
    RepeatedIsBound(rt, terms, seen);
    SampleIsTrusted(grantId, path, hash);
    SampleClaimsAreValid(grantId, path, hash);
    grantHash := TokenForTermsIsAccepted(rt, sign, TRUST, terms, map[], seen);
    token := Issue(rt, sign, ClaimsOf(terms, map[])).value;
  }

  lemma SomeLibrary() returns (rt: Runtime, sign: Bytes -> Bytes)
    ensures FloatsRoundTrip(rt) && SignsFor(rt, sign, TRUST.publicKey)
  {
    AssumptionsCanHold(TRUST.publicKey);
    rt, sign :| FloatsRoundTrip(rt) && SignsFor(rt, sign, TRUST.publicKey);
  }

  lemma RootIsSamplePath()
    ensures IsSamplePath(ROOT) && IsWirePath(ROOT)
  {
  }

  /** Verification is not refusal throughout: some token is accepted for some request. */
  lemma SomeTokenIsAccepted()
    ensures exists rt, token, seen :: FloatsRoundTrip(rt) && Verify(rt, TRUST, token, seen).Ok?
  {
    var rt, sign := SomeLibrary();
    RootIsSamplePath();
    var token, seen, hash, grantHash := SampleIsAccepted(rt, sign, WORD, ROOT, Null);
  }

  // ----- grants that are accepted and cannot be redeemed, under every library -----

  const NO_QUERY: map<Text, Json> := map[]
  const PADDED := Lit(" g")
  const DOUBLE_SLASH := Lit("//x")

  /** No request that presents this token is ever let through. */
  ghost predicate IsStuck(rt: Runtime, token: Text) {
    forall call: Inbound | SingleHeader(call.request.headers, GRANT_HEADER) == Ok(token) :: !Prepare(rt, call).Ready?
  }

  lemma UnfitIsStuck(rt: Runtime, token: Text, seen: Presented)
    requires FloatsRoundTrip(rt) && Verify(rt, TRUST, token, seen).Ok?
    requires var terms := Verify(rt, TRUST, token, seen).value.terms;
      !HasTrimmedClaims(terms) || !IsWirePath(terms.transport.path)
    ensures IsStuck(rt, token)
  {
    forall call: Inbound | SingleHeader(call.request.headers, GRANT_HEADER) == Ok(token)
      ensures !Prepare(rt, call).Ready?
    {
      if Prepare(rt, call).Ready? {
        LetThroughFits(rt, TRUST, token, seen, call);
      }
    }
  }

  lemma PaddedIsUntrimmed(terms: GrantClaims)
    requires terms.grantId == PADDED
    ensures !HasTrimmedClaims(terms)
  {
    assert BoundHeaders(terms)[0].1 == PADDED && IsSpace(PADDED[0]);
  }

  lemma PaddedIsSampleName()
    ensures IsSampleName(PADDED) && IsSampleName(WORD)
  {
  }

  lemma NoQueryIsReceivable()
    ensures Valid(Obj(NO_QUERY)) && IsReceivable(GET, Obj(NO_QUERY))
  {
  }

  lemma SampleParts(grantId: Text, path: Text, hash: Text, grantHash: Text)
    ensures var terms := SampleTerms(grantId, path, hash).(grantHash := grantHash);
      terms.grantId == grantId && terms.transport.path == path && terms.transport.verb == GET
  {
  }

  /** A grant called ` g` is accepted for a request by GET without a query, and stuck. */
  lemma PaddedGrantIsStuck(rt: Runtime, sign: Bytes -> Bytes) returns (token: Text, seen: Presented)
    requires FloatsRoundTrip(rt) && SignsFor(rt, sign, TRUST.publicKey)
    ensures Verify(rt, TRUST, token, seen).Ok?
    ensures var terms := Verify(rt, TRUST, token, seen).value.terms;
      terms.grantId == PADDED && IsWirePath(terms.transport.path) && IsReceivable(terms.transport.verb, seen.request)
    ensures IsStuck(rt, token)
  {
    RootIsSamplePath();
    PaddedIsSampleName();
    NoQueryIsReceivable();
    var hash, grantHash;
    token, seen, hash, grantHash := SampleIsAccepted(rt, sign, PADDED, ROOT, Obj(NO_QUERY));
    SampleParts(PADDED, ROOT, hash, grantHash);
    PaddedIsUntrimmed(Verify(rt, TRUST, token, seen).value.terms);
    UnfitIsStuck(rt, token, seen);
  }

  lemma DoubleSlashIsNoWirePath()
    ensures IsSamplePath(DOUBLE_SLASH) && !IsWirePath(DOUBLE_SLASH)
  {
  }

  lemma WordsArePresentable(path: Text, hash: Text, grantHash: Text)
    ensures IsPresentable(SampleTerms(WORD, path, hash).(grantHash := grantHash))
  {
  }

  /** A grant for the path `//x`, its claims fit for headers, is accepted likewise, and stuck. */
  lemma DoubleSlashIsStuck(rt: Runtime, sign: Bytes -> Bytes) returns (token: Text, seen: Presented)
    requires FloatsRoundTrip(rt) && SignsFor(rt, sign, TRUST.publicKey)
    ensures Verify(rt, TRUST, token, seen).Ok?
    ensures var terms := Verify(rt, TRUST, token, seen).value.terms;
      terms.transport.path == DOUBLE_SLASH && IsPresentable(terms) && IsReceivable(terms.transport.verb, seen.request)
    ensures IsStuck(rt, token)
  {
    DoubleSlashIsNoWirePath();
    PaddedIsSampleName();
    NoQueryIsReceivable();
    var hash, grantHash;
    token, seen, hash, grantHash := SampleIsAccepted(rt, sign, WORD, DOUBLE_SLASH, Obj(NO_QUERY));
    SampleParts(WORD, DOUBLE_SLASH, hash, grantHash);
    WordsArePresentable(DOUBLE_SLASH, hash, grantHash);
    UnfitIsStuck(rt, token, seen);
  }

  /** A GET grant for the value `null`, otherwise in order, is accepted for that value; since a GET
      request is always worth an object, any request it lets through collides with it. */
  lemma NullByGetIsStuck(rt: Runtime, sign: Bytes -> Bytes) returns (token: Text, seen: Presented)
    requires FloatsRoundTrip(rt) && SignsFor(rt, sign, TRUST.publicKey)
    ensures Verify(rt, TRUST, token, seen).Ok? && seen.request == Null
    ensures var terms := Verify(rt, TRUST, token, seen).value.terms;
      terms.transport.verb == GET && IsPresentable(terms) && IsWirePath(terms.transport.path)
    ensures forall call: Inbound |
      SingleHeader(call.request.headers, GRANT_HEADER) == Ok(token) && Prepare(rt, call).Ready? ::
        Reconstruct(rt, call.request).Ok? && ValuesCollide(rt, Null, Reconstruct(rt, call.request).value)
  {
    RootIsSamplePath();
    GetIsMethod();
    var hash, grantHash;
    PaddedIsSampleName();
    token, seen, hash, grantHash := SampleIsAccepted(rt, sign, WORD, ROOT, Null);
    SampleParts(WORD, ROOT, hash, grantHash);
    WordsArePresentable(ROOT, hash, grantHash);
    forall call: Inbound |
      SingleHeader(call.request.headers, GRANT_HEADER) == Ok(token) && Prepare(rt, call).Ready?
      ensures Reconstruct(rt, call.request).Ok? && ValuesCollide(rt, Null, Reconstruct(rt, call.request).value)
    {
      LetThroughHasValue(rt, TRUST, token, seen, call);
    }
  }

  // ----- a request that is let through, and the authority called without headers -----

  function SampleRequest(token: Text, terms: GrantClaims): Request {
    Request(GET, GrantHeaders(token, terms), [], [], Some([47]))
  }

  const ROUTED := Dependency(TRUST, WORD, WORD, WORD, None, None, map[])

  function SampleCall(token: Text, terms: GrantClaims): Inbound {
    Inbound(ROUTED, SampleRequest(token, terms), START, NoAuth)
  }

  lemma GetIsMethod()
    ensures Upper(GET) == GET && IsMethod(GET) && IsSafe(GET)
  {
    UpperKeepsMethod(GET);
  }

  lemma SampleValue(rt: Runtime)
    ensures CanonicalRequest(rt, GET, Null, []) == Ok(Obj(NO_QUERY))
    ensures WirePairs(rt, []) == Ok([])
  {
    GetIsMethod();
    NoParams(rt);
  }

  lemma SampleIsCarried(rt: Runtime, token: Text, terms: GrantClaims)
    ensures Carries(rt, SampleRequest(token, terms), GET, Null, [])
  {
  }

  lemma SampleIsSent(token: Text, terms: GrantClaims)
    ensures IsRouteOf(ROUTED, RouteTo(ROOT)) && SendsTo(SampleRequest(token, terms), RouteTo(ROOT))
  {
    GetIsMethod();
    RootIsSamplePath();
    RootEncodes();
  }

  lemma RootEncodes()
    ensures Utf8.Encodable(ROOT) && Utf8.Encode(ROOT) == [47]
  {
    RootIsSamplePath();
    AsciiEncodes(ROOT);
    assert |Utf8.Encode(ROOT)| == |Widen(Utf8.Encode(ROOT))| == 1;
    assert Utf8.Encode(ROOT)[0] == Widen(Utf8.Encode(ROOT))[0] == 47;
  }

  lemma SampleIsConfigured(rt: Runtime, token: Text, terms: GrantClaims)
    ensures Configured(rt, SampleCall(token, terms), map[])
  {
  }

  lemma MeantByTerms(
    rt: Runtime, claims: map<Text, Json>, payload: map<Text, Json>, terms: GrantClaims, call: Inbound, value: Json)
    requires Valid(Obj(claims)) && SIGNATURE !in claims && GRANT_HASH !in claims
    requires Hashed(rt, claims) == Ok(payload) && MatchesSchema(rt, payload) && ReadClaims(rt, payload) == terms
    requires Trusted(call.dependency.verifier, terms, call.now) && IsHashOf(rt, terms.requestHash, value)
    ensures MeantFor(rt, claims, call, value, terms.transport, map[])
  {
  }

  lemma HashedIsTrusted(grantId: Text, hash: Text, grantHash: Text)
    ensures Trusted(TRUST, SampleTerms(grantId, ROOT, hash).(grantHash := grantHash), START)
  {
  }

  /** The claims of the sample, hashed, and the terms they read back as. */
  lemma SamplePayload(rt: Runtime, hash: Text) returns (payload: map<Text, Json>, terms: GrantClaims)
    requires FloatsRoundTrip(rt) && IsHash(hash)
    ensures var claims := ClaimsOf(SampleTerms(WORD, ROOT, hash), map[]);
      && Valid(Obj(claims)) && SIGNATURE !in claims && GRANT_HASH !in claims
      && Hashed(rt, claims) == Ok(payload)
    ensures MatchesSchema(rt, payload) && ReadClaims(rt, payload) == terms
    ensures terms == SampleTerms(WORD, ROOT, hash).(grantHash := terms.grantHash)
  {
    var claims := ClaimsOf(SampleTerms(WORD, ROOT, hash), map[]);
    RootIsSamplePath();
    SampleIsWellFormed(WORD, ROOT, hash);
    SampleClaimsAreValid(WORD, ROOT, hash);
    ClaimsHold(SampleTerms(WORD, ROOT, hash), map[]);
    HashedTerms(rt, SampleTerms(WORD, ROOT, hash), map[]);
    payload := Hashed(rt, claims).value;
    terms := ReadClaims(rt, payload);
  }

  lemma WordIsTrimmed(terms: GrantClaims, hash: Text, grantHash: Text)
    requires terms == SampleTerms(WORD, ROOT, hash).(grantHash := grantHash)
    ensures HasTrimmedClaims(terms)
  {
  }

  /** Some request passes every check of the receiver at a route without a header source: then the
      authority is called without headers of its own. */
  lemma SomeRequestIsReady() returns (rt: Runtime, call: Inbound)
    ensures FloatsRoundTrip(rt)
    ensures Prepare(rt, call).Ready? && call.auth == NoAuth && Prepare(rt, call).authHeaders == map[]
    ensures SnapshotOf(rt, map[]) == Ok(call.dependency.required)
  {
    var sign;
    rt, sign := SomeLibrary();
    call := SampleIsReady(rt, sign);
    AuthHeadersBeforeTheCall(rt, call);
  }

  lemma SampleIsReady(rt: Runtime, sign: Bytes -> Bytes) returns (call: Inbound)
    requires FloatsRoundTrip(rt) && SignsFor(rt, sign, TRUST.publicKey)
    ensures Prepare(rt, call).Ready? && call.auth == NoAuth && call.dependency == ROUTED
  {
    var hash := HashExists(rt, Obj(NO_QUERY));
    var claims := ClaimsOf(SampleTerms(WORD, ROOT, hash), map[]);
    var payload, terms := SamplePayload(rt, hash);
    IssuedIsGenuine(rt, sign, TRUST.publicKey, claims);
    var token := Issue(rt, sign, claims).value;
    call := SampleCall(token, terms);
    HashedIsTrusted(WORD, hash, terms.grantHash);
    MeantByTerms(rt, claims, payload, terms, call, Obj(NO_QUERY));
    WordIsTrimmed(terms, hash, terms.grantHash);
    SentIsReady(rt, sign, claims, payload, terms, token);
  }

  lemma SentIsReady(
    rt: Runtime, sign: Bytes -> Bytes, claims: map<Text, Json>, payload: map<Text, Json>, terms: GrantClaims, token: Text)
    requires FloatsRoundTrip(rt) && SignsFor(rt, sign, TRUST.publicKey)
    requires Hashed(rt, claims) == Ok(payload) && MatchesSchema(rt, payload) && ReadClaims(rt, payload) == terms
    requires Issue(rt, sign, claims) == Ok(token) && HasTrimmedClaims(terms)
    requires MeantFor(rt, claims, SampleCall(token, terms), Obj(NO_QUERY), RouteTo(ROOT), map[])
    ensures Prepare(rt, SampleCall(token, terms)).Ready?
  {
    var call := SampleCall(token, terms);
    SampleValue(rt);
    SampleIsConfigured(rt, token, terms);
    SampleIsSent(token, terms);
    RootIsSamplePath();
    SampleIsCarried(rt, token, terms);
    GrantHeadersSend(token, terms);
    HonestRequestReachesTheAuthority(rt, sign, call, GET, Null, [], claims, RouteTo(ROOT), map[]);
  }

  /** A header whose value is blank is a good source that is not empty. */
  lemma BlankHeaderIsGood()
    ensures var auth := Supplied(Ok([(Lit("X-Internal-Token"), Lit(" "))]));
      IsGoodSource(auth) && !IsEmptySource(auth)
  {
  }

  // ----- a run in which a handler runs -----

  /** The states through which the steps lead. */
  function Trace(prepare: Inbound -> Prepared, s: System, steps: seq<Step>): (states: seq<System>)
    requires ApplyAll(prepare, s, steps).Some?
    ensures |states| == |steps| + 1 && states[0] == s
    decreases |steps|
  {
    if steps == [] then [s] else [s] + Trace(prepare, Apply(prepare, s, steps[0]), steps[1..])
  }

  lemma {:induction false} TraceIsTaken(prepare: Inbound -> Prepared, s: System, steps: seq<Step>, i: nat)
    requires ApplyAll(prepare, s, steps).Some? && i < |steps|
    ensures Enabled(Trace(prepare, s, steps)[i], steps[i])
    ensures Trace(prepare, s, steps)[i + 1] == Apply(prepare, Trace(prepare, s, steps)[i], steps[i])
    decreases |steps|
  {
    if i > 0 {
      TraceIsTaken(prepare, Apply(prepare, s, steps[0]), steps[1..], i - 1);
    }
  }

  lemma {:induction false} TraceEnds(prepare: Inbound -> Prepared, s: System, steps: seq<Step>)
    requires ApplyAll(prepare, s, steps).Some?
    ensures Trace(prepare, s, steps)[|steps|] == ApplyAll(prepare, s, steps).value
    decreases |steps|
  {
    if steps != [] {
      TraceEnds(prepare, Apply(prepare, s, steps[0]), steps[1..]);
    }
  }

  lemma TraceIsRun(prepare: Inbound -> Prepared, steps: seq<Step>)
    requires ApplyAll(prepare, INITIAL, steps).Some?
    ensures IsRun(prepare, Trace(prepare, INITIAL, steps), steps)
  {
    forall i | 0 <= i < |steps|
      ensures Enabled(Trace(prepare, INITIAL, steps)[i], steps[i])
      ensures Trace(prepare, INITIAL, steps)[i + 1] == Apply(prepare, Trace(prepare, INITIAL, steps)[i], steps[i])
    {
      TraceIsTaken(prepare, INITIAL, steps, i);
    }
  }

  function Acknowledgement(grantId: Text): Reply {
    Response(200, Some(Obj(map[REDEEMED := Bool(true), GRANT_ID := Str(grantId), EVENT_ID := Str(WORD)])))
  }

  lemma AcknowledgementIsOne(grantId: Text)
    ensures Acknowledges(Acknowledgement(grantId), grantId)
  {
    assert |EVENT_ID| == 8 && |GRANT_ID| == 8 && |REDEEMED| == 8;
    assert EVENT_ID[0] != GRANT_ID[0] && EVENT_ID[0] != REDEEMED[0] && GRANT_ID[0] != REDEEMED[0];
    assert IsTrimmed(WORD);
  }

  /** In some run of the protocol a handler runs, so what is said of every handler run is said of
      something. */
  lemma SomeHandlerRuns() returns (rt: Runtime, states: seq<System>, steps: seq<Step>)
    ensures FloatsRoundTrip(rt)
    ensures IsRun(call => Prepare(rt, call), states, steps)
    ensures 0 in states[|steps|].requests && states[|steps|].requests[0].phase.Handled?
    ensures SnapshotOf(rt, map[]) == Ok(states[|steps|].requests[0].call.dependency.required)
  {
    var call;
    rt, call := SomeRequestIsReady();
    states, steps := HandledRun(c => Prepare(rt, c), call);
  }

  lemma HandledRun(prepare: Inbound -> Prepared, call: Inbound) returns (states: seq<System>, steps: seq<Step>)
    requires prepare(call).Ready?
    ensures IsRun(prepare, states, steps)
    ensures 0 in states[|steps|].requests
    ensures states[|steps|].requests[0].call == call && states[|steps|].requests[0].phase.Handled?
  {
    var grantId := prepare(call).redemption.grantId;
    var reply := Acknowledgement(grantId);
    AcknowledgementIsOne(grantId);
    OnlyAcknowledgementAuthorizes(prepare(call).redemption, reply);
    SequentialRunIsARun(prepare, INITIAL, 0, call, 0, reply, true);
    steps := StepsAlone(prepare, INITIAL, 0, call, 0, reply, true);
    states := Trace(prepare, INITIAL, steps);
    TraceIsRun(prepare, steps);
    TraceEnds(prepare, INITIAL, steps);
  }
}
