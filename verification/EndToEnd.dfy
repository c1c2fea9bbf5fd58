/** Sender, issuer, receiver and authority put together. */
module EndToEnd {
  import opened Base
  import opened Json
  import opened JsonPrint
  import opened JsonRoundTrip
  import opened Hashing
  import opened Runtimes
  import opened Queries
  import opened Requests
  import opened Claims
  import opened Verifiers
  import opened VerifierTheorems
  import opened RequiredClaims
  import opened Dependencies
  import opened Presenting
  import opened Protocol
  import Base64Url

  // ----- safety: a handler run proves everything the grant promises -----

  /** The token a request presents. */
  function PresentedToken(call: Inbound): Text
    requires SingleHeader(call.request.headers, GRANT_HEADER).Ok?
  {
    SingleHeader(call.request.headers, GRANT_HEADER).value
  }

  /** The request carries a genuine token whose claims authorize exactly this request here and now
      and hold every claim the route requires. */
  ghost predicate Rightful(
    rt: Runtime, call: Inbound, required: map<Text, Json>, terms: GrantClaims,
    payload: map<Text, Json>, signature: Bytes)
  {
    && SingleHeader(call.request.headers, GRANT_HEADER).Ok?
    && CollectHeaders(call.request.headers, BOUND_HEADER_NAMES).Ok?
    && Reconstruct(rt, call.request).Ok?
    && ReceiverTransport(call.dependency, call.request).Ok?
    && Genuine(rt, call.dependency.verifier.publicKey, PresentedToken(call), payload, signature)
    && Authorizes(rt, call.dependency.verifier, payload, terms,
         Presented(Reconstruct(rt, call.request).value,
                   DumpTransport(ReceiverTransport(call.dependency, call.request).value),
                   CollectHeaders(call.request.headers, BOUND_HEADER_NAMES).value, call.now))
    && forall k | k in required :: k in payload && payload[k] == required[k]
  }

  lemma RequiredAreSigned(rt: Runtime, grant: VerifiedGrant, payload: map<Text, Json>,
                          required: map<Text, Json>, snapshot: map<Text, Bytes>)
    requires FloatsRoundTrip(rt) && SnapshotOf(rt, required) == Ok(snapshot)
    requires grant.claims == Freeze(Obj(payload))
    ensures CheckRequired(rt, grant, snapshot).Ok? <==> forall k | k in required :: k in payload && payload[k] == required[k]
  {
    RequiredCheckIsExact(rt, required, grant);
    ThawFreeze(Obj(payload));
    assert forall k | k in required :: Holds(grant, k, required[k]) <==> k in payload && payload[k] == required[k];
  }

  lemma EntitledIsRightful(
    rt: Runtime, call: Inbound, required: map<Text, Json>, grant: VerifiedGrant, redemption: Redemption)
    returns (payload: map<Text, Json>, signature: Bytes)
    requires FloatsRoundTrip(rt) && SnapshotOf(rt, required) == Ok(call.dependency.required)
    requires Entitled(rt, call, grant, redemption)
    ensures Rightful(rt, call, required, grant.terms, payload, signature)
  {
    var bound := CollectHeaders(call.request.headers, BOUND_HEADER_NAMES).value;
    payload, signature :=
      VerifiedRequestIsBound(rt, call, PresentedToken(call), bound, grant, redemption.transport);
    RequiredAreSigned(rt, grant, payload, required, call.dependency.required);
  }

  /** In every run of the protocol, a handler ran only for a rightful request, after the
      authority's own yes to its grant. */
  lemma HandlerRunsAreRightful(
    rt: Runtime, states: seq<System>, steps: seq<Step>, i: nat, id: nat, required: map<Text, Json>)
    requires FloatsRoundTrip(rt)
    requires IsRun(call => Prepare(rt, call), states, steps) && i < |states|
    requires id in states[i].requests && states[i].requests[id].phase.Handled?
    requires SnapshotOf(rt, required) == Ok(states[i].requests[id].call.dependency.required)
    ensures var entry := states[i].requests[id];
      && states[i].successes[entry.phase.redemption.grantId] == 1
      && entry.phase.redemption.grantId == entry.phase.grant.terms.grantId
      && exists payload, signature ::
           Rightful(rt, entry.call, required, entry.phase.grant.terms, payload, signature)
  {
    HandledWasCleared(call => Prepare(rt, call), states, steps, i, id);
    var entry := states[i].requests[id];
    ReadyIsEntitled(rt, entry.call, entry.phase.grant, entry.phase.redemption);
    RedemptionNamesItsRequest(rt, entry.call, entry.phase.grant, entry.phase.redemption);
    var payload, signature :=
      EntitledIsRightful(rt, entry.call, required, entry.phase.grant, entry.phase.redemption);
  }

  /** In every run, each redeem call names the grant, hashes, token and transport of the request
      that sent it, and that request had passed every check. */
  lemma CallsNameTheirRequests(rt: Runtime, states: seq<System>, steps: seq<Step>, i: nat, n: nat)
    requires FloatsRoundTrip(rt)
    requires IsRun(call => Prepare(rt, call), states, steps) && i < |states| && n < |states[i].calls|
    ensures var (id, redemption) := states[i].calls[n];
      && id in states[i].requests
      && var call := states[i].requests[id].call;
      && Prepare(rt, call).Ready?
      && Entitled(rt, call, Prepare(rt, call).grant, redemption)
      && redemption.grantId == Prepare(rt, call).grant.terms.grantId
      && redemption.grantHash == Prepare(rt, call).grant.terms.grantHash
      && TokenFingerprint(rt, PresentedToken(call)) == Ok(redemption.tokenFingerprint)
      && Reconstruct(rt, call.request).Ok?
      && IsHashOf(rt, redemption.requestHash, Reconstruct(rt, call.request).value)
      && ReceiverTransport(call.dependency, call.request) == Ok(redemption.transport)
  {
    OneCallPerRequest(call => Prepare(rt, call), states, steps, i);
    var (id, redemption) := states[i].calls[n];
    assert Cleared(call => Prepare(rt, call), states[i], id, redemption);
    var call := states[i].requests[id].call;
    ReadyIsEntitled(rt, call, Prepare(rt, call).grant, redemption);
    RedemptionNamesItsRequest(rt, call, Prepare(rt, call).grant, redemption);
  }

  /** No use is consumed by a local rejection: in every run, whenever the authority changed its state
      on behalf of a request, that request had passed every single check and is past its call. */
  lemma LedgerNamesEntitled(rt: Runtime, states: seq<System>, steps: seq<Step>, i: nat, k: nat)
    requires IsRun(call => Prepare(rt, call), states, steps) && i < |states| && k < |states[i].ledger|
    ensures var id := states[i].ledger[k];
      && id in states[i].requests
      && HasCalled(states[i].requests[id].phase)
      && var call := states[i].requests[id].call;
      && Prepare(rt, call).Ready?
      && Entitled(rt, call, Prepare(rt, call).grant, Prepare(rt, call).redemption)
  {
    NoUseByLocalRejection(call => Prepare(rt, call), states, steps, i, k);
    var call := states[i].requests[states[i].ledger[k]].call;
    ReadyIsEntitled(rt, call, Prepare(rt, call).grant, Prepare(rt, call).redemption);
  }

  // ----- completeness: an honest request reaches the authority -----

  lemma Collected(headers: seq<(Text, Text)>, bound: seq<(Text, Text)>)
    requires forall i | 0 <= i < |bound| :: SingleHeader(headers, bound[i].0) == Ok(bound[i].1)
    ensures CollectHeaders(headers, KeysIn(bound)).Ok?
    ensures forall i | 0 <= i < |bound| :: HeaderAgrees(CollectHeaders(headers, KeysIn(bound)).value, bound[i])
  {
    assert CollectHeaders(headers, KeysIn(bound)).Ok?;
    var found := CollectHeaders(headers, KeysIn(bound)).value;
    forall i | 0 <= i < |bound| ensures HeaderAgrees(found, bound[i]) {
      assert KeysIn(bound)[i] in KeysIn(bound);
    }
  }

  lemma BoundNames(terms: GrantClaims)
    ensures KeysIn(BoundHeaders(terms)) == BOUND_HEADER_NAMES
  {
  }

  lemma HeadersAgree(headers: seq<(Text, Text)>, token: Text, terms: GrantClaims)
    requires PresentsGrant(headers, token, terms)
    ensures CollectHeaders(headers, BOUND_HEADER_NAMES).Ok?
    ensures var bound := CollectHeaders(headers, BOUND_HEADER_NAMES).value;
      forall i | 0 <= i < 6 :: HeaderAgrees(bound, BoundHeaders(terms)[i])
  {
    BoundNames(terms);
    Collected(headers, BoundHeaders(terms));
  }

  lemma EncodedIsAscii(b: Bytes)
    ensures IsAscii(Base64Url.Encode(b))
  {
    EncodedInAlphabet(b);
    AlphabetHasNoSpace(Base64Url.Encode(b));
  }

  lemma AsciiAppend(a: Text, b: Text)
    requires IsAscii(a) && IsAscii(b)
    ensures IsAscii(a + b)
  {
  }

  lemma TokenIsAscii(payload: Bytes, signature: Bytes)
    ensures IsAscii(TokenText(payload, signature)) && TokenText(payload, signature) != []
  {
    EncodedIsAscii(payload);
    EncodedIsAscii(signature);
    AsciiAppend([DOT], Base64Url.Encode(signature));
    AsciiAppend(Base64Url.Encode(payload), [DOT] + Base64Url.Encode(signature));
  }

  /** The issuer's claims fit this receiver: its trust tuple, clock, transport, the value of the
      sender's request, and the claims the route requires. */
  ghost predicate MeantFor(
    rt: Runtime, claims: map<Text, Json>, call: Inbound, value: Json, transport: Transport, required: map<Text, Json>)
  {
    && Valid(Obj(claims)) && SIGNATURE !in claims && GRANT_HASH !in claims
    && Hashed(rt, claims).Ok?
    && MatchesSchema(rt, Hashed(rt, claims).value)
    && var terms := ReadClaims(rt, Hashed(rt, claims).value);
    && Trusted(call.dependency.verifier, terms, call.now)
    && IsHashOf(rt, terms.requestHash, value)
    && terms.transport == transport
    && forall k | k in required :: k in Hashed(rt, claims).value && Hashed(rt, claims).value[k] == required[k]
  }

  lemma MeantIsIntended(
    rt: Runtime, claims: map<Text, Json>, call: Inbound, value: Json, transport: Transport,
    required: map<Text, Json>, token: Text)
    requires MeantFor(rt, claims, call, value, transport, required) && ValidTransport(transport)
    requires PresentsGrant(call.request.headers, token, ReadClaims(rt, Hashed(rt, claims).value))
    ensures CollectHeaders(call.request.headers, BOUND_HEADER_NAMES).Ok?
    ensures Intended(rt, call.dependency.verifier, claims,
      Presented(value, DumpTransport(transport), CollectHeaders(call.request.headers, BOUND_HEADER_NAMES).value, call.now))
  {
    var terms := ReadClaims(rt, Hashed(rt, claims).value);
    HeadersAgree(call.request.headers, token, terms);
    ReadDumpedTransport(transport);
    BoundIsRead(rt, terms, Presented(value, DumpTransport(transport),
                                     CollectHeaders(call.request.headers, BOUND_HEADER_NAMES).value, call.now));
  }

  /** The configuration around the grant: the route's required claims, its receiver name and the
      authority's headers are in order. */
  ghost predicate Configured(rt: Runtime, call: Inbound, required: map<Text, Json>) {
    && SnapshotOf(rt, required) == Ok(call.dependency.required)
    && 1 <= |call.dependency.receiverId| <= 200
    && ResolveAuth(call.auth).Ok?
  }

  /** A verified grant that holds the required claims goes through the remaining checks. */
  lemma AcceptedIsReady(
    rt: Runtime, call: Inbound, payload: map<Text, Json>, transport: Transport,
    required: map<Text, Json>, token: Text, grant: VerifiedGrant)
    requires FloatsRoundTrip(rt) && Configured(rt, call, required)
    requires MatchesSchema(rt, payload)
    requires forall k | k in required :: k in payload && payload[k] == required[k]
    requires SingleHeader(call.request.headers, GRANT_HEADER) == Ok(token) && IsAscii(token)
    requires CollectHeaders(call.request.headers, BOUND_HEADER_NAMES).Ok?
    requires VerifyRequest(rt, call, token, CollectHeaders(call.request.headers, BOUND_HEADER_NAMES).value)
          == Ok((grant, transport))
    requires grant.terms == ReadClaims(rt, payload) && grant.claims == Freeze(Obj(payload))
    ensures Prepare(rt, call).Ready? && Prepare(rt, call).grant == grant
  {
    RequiredAreSigned(rt, grant, payload, required, call.dependency.required);
    RedemptionIsMade(rt, call.dependency, token, payload, transport);
    var redemption := MakeRedemption(rt, call.dependency, token, grant.terms, transport).value;
    MadeRedemption(rt, call.dependency, token, grant.terms, transport, redemption);
    ReadyIsEntitled(rt, call, grant, redemption);
  }

  lemma RedemptionIsMade(
    rt: Runtime, dependency: Dependency, token: Text, payload: map<Text, Json>, transport: Transport)
    requires token != [] && IsAscii(token) && 1 <= |dependency.receiverId| <= 200
    requires MatchesSchema(rt, payload)
    ensures MakeRedemption(rt, dependency, token, ReadClaims(rt, payload), transport).Ok?
  {
  }

  /** A rightful request of a route whose configuration is in order passes every check. */
  lemma RightfulIsReady(
    rt: Runtime, call: Inbound, required: map<Text, Json>, terms: GrantClaims,
    payload: map<Text, Json>, signature: Bytes)
    requires FloatsRoundTrip(rt) && SnapshotOf(rt, required) == Ok(call.dependency.required)
    requires Rightful(rt, call, required, terms, payload, signature)
    requires 1 <= |call.dependency.receiverId| <= 200 && ResolveAuth(call.auth).Ok?
    ensures Prepare(rt, call).Ready?
    ensures Prepare(rt, call).grant == VerifiedGrant(terms, Freeze(Obj(payload)))
  {
    var transport := ReceiverTransport(call.dependency, call.request).value;
    var seen := Presented(Reconstruct(rt, call.request).value, DumpTransport(transport),
                          CollectHeaders(call.request.headers, BOUND_HEADER_NAMES).value, call.now);
    var grant := VerifiedGrant(terms, Freeze(Obj(payload)));
    SoundIsRead(rt, payload, terms);
    GenuineIsAccepted(rt, call.dependency.verifier, PresentedToken(call), seen, payload, signature, terms);
    TokenIsAscii(PayloadBytes(rt, payload), signature);
    AcceptedIsReady(rt, call, payload, transport, required, PresentedToken(call), grant);
  }

  lemma ReadyWasRightful(rt: Runtime, call: Inbound, required: map<Text, Json>)
    requires FloatsRoundTrip(rt) && SnapshotOf(rt, required) == Ok(call.dependency.required)
    requires Prepare(rt, call).Ready?
    ensures 1 <= |call.dependency.receiverId| <= 200 && ResolveAuth(call.auth).Ok?
    ensures IsRightful(rt, call, required)
  {
    var grant, redemption := Prepare(rt, call).grant, Prepare(rt, call).redemption;
    ReadyIsEntitled(rt, call, grant, redemption);
    MadeReceiver(rt, call.dependency, PresentedToken(call), grant.terms, redemption.transport);
    var payload, signature := EntitledIsRightful(rt, call, required, grant, redemption);
    assert Rightful(rt, call, required, grant.terms, payload, signature);
  }

  lemma MadeReceiver(rt: Runtime, dependency: Dependency, token: Text, terms: GrantClaims, transport: Transport)
    requires MakeRedemption(rt, dependency, token, terms, transport).Ok?
    ensures 1 <= |dependency.receiverId| <= 200
  {
  }

  /** The receiver's checks are exact: a request goes on to the authority iff it is rightful under
      some claims and signature, the receiver's name fits the redemption, and the authority's
      headers resolve. */
  lemma ReadyIsRightful(rt: Runtime, call: Inbound, required: map<Text, Json>)
    requires FloatsRoundTrip(rt) && SnapshotOf(rt, required) == Ok(call.dependency.required)
    ensures Prepare(rt, call).Ready? <==>
      && 1 <= |call.dependency.receiverId| <= 200
      && IsGoodSource(call.auth)
      && IsRightful(rt, call, required)
  {
    ResolveAuthIsExact(call.auth);
    if Prepare(rt, call).Ready? {
      ReadyWasRightful(rt, call, required);
    }
    if IsRightful(rt, call, required) && 1 <= |call.dependency.receiverId| <= 200 && IsGoodSource(call.auth) {
      RightfulSuffices(rt, call, required);
    }
  }

  lemma RightfulSuffices(rt: Runtime, call: Inbound, required: map<Text, Json>)
    requires FloatsRoundTrip(rt) && SnapshotOf(rt, required) == Ok(call.dependency.required)
    requires IsRightful(rt, call, required)
    requires 1 <= |call.dependency.receiverId| <= 200 && ResolveAuth(call.auth).Ok?
    ensures Prepare(rt, call).Ready?
  {
    var terms, payload, signature :| Rightful(rt, call, required, terms, payload, signature);
    RightfulIsReady(rt, call, required, terms, payload, signature);
  }

  /** Some claims and signature make the request rightful. */
  ghost predicate IsRightful(rt: Runtime, call: Inbound, required: map<Text, Json>) {
    exists terms, payload, signature :: Rightful(rt, call, required, terms, payload, signature)
  }

  /** The receiver rebuilds the sender's value and verifies the issued token against it. */
  lemma HonestRequestVerifies(
    rt: Runtime, sign: Bytes -> Bytes, call: Inbound, value: Json,
    claims: map<Text, Json>, transport: Transport, required: map<Text, Json>, token: Text)
    requires FloatsRoundTrip(rt) && SignsFor(rt, sign, call.dependency.verifier.publicKey)
    requires Reconstruct(rt, call.request) == Ok(value)
    requires ReceiverTransport(call.dependency, call.request) == Ok(transport)
    requires MeantFor(rt, claims, call, value, transport, required)
    requires Issue(rt, sign, claims) == Ok(token)
    requires PresentsGrant(call.request.headers, token, ReadClaims(rt, Hashed(rt, claims).value))
    ensures CollectHeaders(call.request.headers, BOUND_HEADER_NAMES).Ok?
    ensures VerifyRequest(rt, call, token, CollectHeaders(call.request.headers, BOUND_HEADER_NAMES).value)
         == Ok((VerifiedGrant(ReadClaims(rt, Hashed(rt, claims).value), Freeze(Obj(Hashed(rt, claims).value))), transport))
  {
    MeantIsIntended(rt, claims, call, value, transport, required, token);
    var seen := Presented(value, DumpTransport(transport),
                          CollectHeaders(call.request.headers, BOUND_HEADER_NAMES).value, call.now);
    IssuedTokenIsAccepted(rt, sign, call.dependency.verifier, claims, seen);
  }

  /** A request that passed every check repeats claims without outer white space; one that came over
      the wire repeats presentable ones. */
  lemma ReadyIsTrimmed(rt: Runtime, call: Inbound)
    requires FloatsRoundTrip(rt) && Prepare(rt, call).Ready?
    ensures HasTrimmedClaims(Prepare(rt, call).grant.terms)
    ensures IsWireHeaders(call.request.headers) ==> IsPresentable(Prepare(rt, call).grant.terms)
  {
    var grant, redemption := Prepare(rt, call).grant, Prepare(rt, call).redemption;
    ReadyIsEntitled(rt, call, grant, redemption);
    var bound := CollectHeaders(call.request.headers, BOUND_HEADER_NAMES).value;
    var payload, signature :=
      VerifiedRequestIsBound(rt, call, PresentedToken(call), bound, grant, redemption.transport);
    BoundIsRead(rt, grant.terms, Presented(Reconstruct(rt, call.request).value, DumpTransport(redemption.transport),
                                           bound, call.now));
    AgreeingAreTrimmed(call.request.headers, grant.terms);
  }

  lemma AgreeingAreTrimmed(headers: seq<(Text, Text)>, terms: GrantClaims)
    requires CollectHeaders(headers, BOUND_HEADER_NAMES).Ok?
    requires forall i | 0 <= i < 6 ::
      HeaderAgrees(CollectHeaders(headers, BOUND_HEADER_NAMES).value, BoundHeaders(terms)[i])
    ensures HasTrimmedClaims(terms)
    ensures IsWireHeaders(headers) ==> IsPresentable(terms)
  {
    BoundNames(terms);
    forall i | 0 <= i < 6
      ensures IsTrimmed(BoundHeaders(terms)[i].1)
      ensures IsWireHeaders(headers) ==> IsFieldText(BoundHeaders(terms)[i].1)
    {
      assert HeaderAgrees(CollectHeaders(headers, BOUND_HEADER_NAMES).value, BoundHeaders(terms)[i]);
      assert KeysIn(BoundHeaders(terms))[i] in BOUND_HEADER_NAMES;
      SingleHeaderShape(headers, BoundHeaders(terms)[i].0);
    }
  }

  /** A request that passed every check names a path that can stand in a request. */
  lemma ReadyHasWirePath(rt: Runtime, call: Inbound)
    requires FloatsRoundTrip(rt) && Prepare(rt, call).Ready?
    ensures IsWirePath(Prepare(rt, call).grant.terms.transport.path)
  {
    var grant, redemption := Prepare(rt, call).grant, Prepare(rt, call).redemption;
    ReadyIsEntitled(rt, call, grant, redemption);
    RedemptionNamesItsRequest(rt, call, grant, redemption);
    SeenPathIsWire(call.dependency, call.request);
  }

  /** Whoever presents a token that opens, the terms are those of its payload. */
  lemma ReadyTerms(rt: Runtime, call: Inbound, payload: map<Text, Json>)
    requires FloatsRoundTrip(rt) && Prepare(rt, call).Ready?
    requires SingleHeader(call.request.headers, GRANT_HEADER).Ok?
    requires OpenToken(rt, call.dependency.verifier.publicKey, PresentedToken(call)) == Ok(payload)
    ensures MatchesSchema(rt, payload) && Prepare(rt, call).grant.terms == ReadClaims(rt, payload)
  {
    var grant, redemption := Prepare(rt, call).grant, Prepare(rt, call).redemption;
    ReadyIsEntitled(rt, call, grant, redemption);
    var bound := CollectHeaders(call.request.headers, BOUND_HEADER_NAMES).value;
    var p, signature :=
      VerifiedRequestIsBound(rt, call, PresentedToken(call), bound, grant, redemption.transport);
    GenuineOpens(rt, call.dependency.verifier.publicKey, PresentedToken(call), p, signature);
    SoundIsRead(rt, p, grant.terms);
  }

  lemma AsciiIsTrimmed(payload: Bytes, signature: Bytes)
    ensures var token := TokenText(payload, signature); IsTrimmed(token) && IsFieldText(token) && token != []
  {
    EncodedHasNoSpace(payload);
    EncodedHasNoSpace(signature);
    JoinedIsTrimmed(Base64Url.Encode(payload), Base64Url.Encode(signature));
  }

  lemma JoinedIsTrimmed(a: Text, b: Text)
    requires HasNoSpace(a) && IsFieldText(a) && HasNoSpace(b) && IsFieldText(b)
    ensures var t := a + ([DOT] + b); IsTrimmed(t) && IsFieldText(t) && t != []
  {
    PlainAppend([DOT], b);
    PlainAppend(a, [DOT] + b);
    PlainIsTrimmed(a + ([DOT] + b));
  }

  lemma PlainAppend(a: Text, b: Text)
    requires HasNoSpace(a) && IsFieldText(a) && HasNoSpace(b) && IsFieldText(b)
    ensures HasNoSpace(a + b) && IsFieldText(a + b)
  {
  }

  lemma PlainIsTrimmed(t: Text)
    requires HasNoSpace(t)
    ensures IsTrimmed(t)
  {
  }

  lemma EncodedHasNoSpace(b: Bytes)
    ensures HasNoSpace(Base64Url.Encode(b)) && IsFieldText(Base64Url.Encode(b))
  {
    EncodedInAlphabet(b);
    AlphabetHasNoSpace(Base64Url.Encode(b));
  }

  predicate HasNoSpace(t: Text) {
    forall i | 0 <= i < |t| :: !IsSpace(t[i])
  }

  lemma EncodedInAlphabet(b: Bytes)
    ensures Base64Url.AllInAlphabet(Base64Url.Encode(b))
  {
    if b != [] {
      Base64Url.DecodeEncode(b);
      Base64Url.DecodeAcceptsCanonical(Base64Url.Encode(b));
    }
  }

  lemma AlphabetHasNoSpace(t: Text)
    requires Base64Url.AllInAlphabet(t)
    ensures HasNoSpace(t) && IsAscii(t) && IsFieldText(t)
  {
  }

  /** From the sender's call to the authority's door: the sender hashes its request, the issuer
      signs claims meant for it, the request travels with the token and the claims in its headers.
      The receiver, rebuilding everything from the wire, lets it through, with that very grant, iff
      none of the six bound claims has outer white space and the path can stand in a request. */
  lemma HonestRequestReachesTheAuthority(
    rt: Runtime, sign: Bytes -> Bytes, call: Inbound,
    method_: Text, body: Json, params: Params,
    claims: map<Text, Json>, transport: Transport, required: map<Text, Json>)
    requires FloatsRoundTrip(rt) && SignsFor(rt, sign, call.dependency.verifier.publicKey)
    requires CanonicalRequest(rt, method_, body, params).Ok?
    requires Carries(rt, call.request, method_, body, WirePairs(rt, params).value)
    requires MeantFor(rt, claims, call, CanonicalRequest(rt, method_, body, params).value, transport, required)
    requires Issue(rt, sign, claims).Ok?
    requires SendsGrant(call.request.headers, Issue(rt, sign, claims).value,
                        ReadClaims(rt, Hashed(rt, claims).value))
    requires Configured(rt, call, required)
    requires IsRouteOf(call.dependency, transport) && SendsTo(call.request, transport)
    ensures Prepare(rt, call).Ready? <==>
      HasTrimmedClaims(ReadClaims(rt, Hashed(rt, claims).value)) && IsWirePath(transport.path)
    ensures Prepare(rt, call).Ready? ==>
      var payload := Hashed(rt, claims).value;
      Prepare(rt, call).grant == VerifiedGrant(ReadClaims(rt, payload), Freeze(Obj(payload)))
  {
    var value := CanonicalRequest(rt, method_, body, params).value;
    var token := Issue(rt, sign, claims).value;
    var terms := ReadClaims(rt, Hashed(rt, claims).value);
    IssuedIsAscii(rt, sign, claims);
    if HasTrimmedClaims(terms) && IsWirePath(transport.path) {
      RouteIsSeen(call.dependency, call.request, transport);
      ReceiverAgrees(rt, method_, body, params, call.request);
      TermsAreFilled(rt, Hashed(rt, claims).value);
      SentIsPresented(call.request.headers, token, terms);
      HonestRequestVerifies(rt, sign, call, value, claims, transport, required, token);
      var grant := VerifiedGrant(terms, Freeze(Obj(Hashed(rt, claims).value)));
      AcceptedIsReady(rt, call, Hashed(rt, claims).value, transport, required, token, grant);
    } else if Prepare(rt, call).Ready? {
      IssuedIsRefused(rt, sign, call, claims, token);
    }
  }

  lemma TermsAreFilled(rt: Runtime, payload: map<Text, Json>)
    requires MatchesSchema(rt, payload)
    ensures forall i | 0 <= i < 6 :: BoundHeaders(ReadClaims(rt, payload))[i].1 != []
  {
  }

  /** A grant with outer white space in a bound claim, or with a path that cannot stand in a request,
      never passes, whoever presents its token. */
  lemma IssuedIsRefused(rt: Runtime, sign: Bytes -> Bytes, call: Inbound, claims: map<Text, Json>, token: Text)
    requires FloatsRoundTrip(rt) && SignsFor(rt, sign, call.dependency.verifier.publicKey)
    requires Valid(Obj(claims)) && SIGNATURE !in claims && Issue(rt, sign, claims) == Ok(token)
    requires Hashed(rt, claims).Ok? && MatchesSchema(rt, Hashed(rt, claims).value)
    requires !HasTrimmedClaims(ReadClaims(rt, Hashed(rt, claims).value))
          || !IsWirePath(ReadClaims(rt, Hashed(rt, claims).value).transport.path)
    requires HeaderValues(call.request.headers, GRANT_HEADER) == [token]
    ensures !Prepare(rt, call).Ready?
  {
    IssuedIsAscii(rt, sign, claims);
    SentIsFound(call.request.headers, GRANT_HEADER, token);
    IssuedIsGenuine(rt, sign, call.dependency.verifier.publicKey, claims);
    var signature :| Genuine(rt, call.dependency.verifier.publicKey, token, Hashed(rt, claims).value, signature);
    GenuineOpens(rt, call.dependency.verifier.publicKey, token, Hashed(rt, claims).value, signature);
    if Prepare(rt, call).Ready? {
      ReadyIsTrimmed(rt, call);
      ReadyHasWirePath(rt, call);
      ReadyTerms(rt, call, Hashed(rt, claims).value);
    }
  }

  lemma IssuedIsAscii(rt: Runtime, sign: Bytes -> Bytes, claims: map<Text, Json>)
    requires Issue(rt, sign, claims).Ok?
    ensures var token := Issue(rt, sign, claims).value; IsAscii(token) && token != [] && IsTrimmed(token)
  {
    var b := CanonicalBytes(rt, Obj(Hashed(rt, claims).value)).value;
    TokenIsAscii(b, sign(b));
    AsciiIsTrimmed(b, sign(b));
  }
}
