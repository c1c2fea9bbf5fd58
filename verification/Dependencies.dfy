/** The receiver's dependency up to its redeem call: every check that runs before the authority
    hears of the request. */
module Dependencies {
  import opened Base
  import opened Json
  import opened Hashing
  import opened Runtimes
  import opened Requests
  import opened Claims
  import opened Contracts
  import opened Verifiers
  import opened RequiredClaims
  import opened JsonRoundTrip
  import opened VerifierTheorems

  const GRANT_HEADER := Lit("X-AI-Local-Capability-Grant")
  const HEADER_DUPLICATED := Denied("capability_grant_header_duplicated")
  const REQUIRED_HEADER_MISSING := Denied("capability_grant_header_missing")
  const RAW_PATH_MISSING := Format("capability_request_raw_path_missing")
  const RAW_PATH_NOT_ASCII := Format("capability_request_raw_path_not_ascii")
  const RAW_PATH_INVALID := Format("capability_request_raw_path_invalid")
  const REQUEST_INVALID := Format("capability_grant_request_invalid")
  const AUTH_NAME_INVALID := Format("broker_auth_header_name_invalid")
  const AUTH_VALUE_INVALID := Format("broker_auth_header_value_invalid")

  /** What a route configures once. */
  datatype Dependency = Dependency(
    verifier: Verifier,
    receiverId: Text,
    transportType: Text,
    service: Text,
    authProfile: Option<Text>,
    tlsAliasProfile: Option<Text>,
    required: map<Text, Bytes>)

  /** Where the authority's own headers come from: none, or a mapping whose supplier may raise. */
  datatype AuthSource = NoAuth | Supplied(items: Result<seq<(Text, Text)>>)

  /** One request as it reaches the dependency, with the clock and the auth source it will see. */
  datatype Inbound = Inbound(dependency: Dependency, request: Request, now: Double, auth: AuthSource)

  datatype Redemption = Redemption(
    grantId: Text,
    grantHash: Text,
    tokenFingerprint: Text,
    receiverId: Text,
    audience: Text,
    requestHash: Text,
    transport: Transport)

  datatype Prepared = Ready(grant: VerifiedGrant, redemption: Redemption, authHeaders: map<Text, Text>)
                    | Refusal(status: int, detail: string)

  /** `_single_header`: present once and not blank. */
  function SingleHeader(headers: seq<(Text, Text)>, name: Text): (r: Result<Text>)
    ensures r.Ok? ==> r.value != []
  {
    var values := HeaderValues(headers, name);
    var _ :- Need(|values| <= 1, HEADER_DUPLICATED);
    var value := if values == [] then [] else Strip(values[0]);
    var _ :- Need(value != [], REQUIRED_HEADER_MISSING);
    Ok(value)
  }

  const BOUND_HEADER_NAMES := [
    GRANT_ID_HEADER, TASK_ID_HEADER, TRACE_ID_HEADER, ACTION_ID_HEADER, ATTEMPT_ID_HEADER, IDEMPOTENCY_HEADER]

  function CollectHeaders(headers: seq<(Text, Text)>, names: seq<Text>): (r: Result<map<Text, Text>>)
    ensures r.Ok? ==> forall k | k in names :: k in r.value && SingleHeader(headers, k) == Ok(r.value[k])
    ensures r.Ok? <==> forall i | 0 <= i < |names| :: SingleHeader(headers, names[i]).Ok?
  {
    if names == [] then Ok(map[])
    else
      var front, last := names[..|names| - 1], names[|names| - 1];
      assert names == front + [last];
      var found :- CollectHeaders(headers, front);
      var value :- SingleHeader(headers, last);
      Ok(found[last := value])
  }

  predicate IsRawPath(path: Text) {
    && path != [] && path[0] == 47
    && !(|path| >= 2 && path[1] == 47)
    && forall i | 0 <= i < |path| :: IsPathChar(path[i])
  }

  /** Each byte as the character of that number. */
  function Widen(b: Bytes): (t: Text)
    ensures |t| == |b| && forall i | 0 <= i < |b| :: t[i] == b[i]
  {
    seq(|b|, i requires 0 <= i < |b| => b[i] as CodePoint)
  }

  /** `reconstruct_fastapi_raw_path`. */
  function RawPath(request: Request): Result<Text> {
    if request.rawPath.None? || request.rawPath.value == [] then Err(RAW_PATH_MISSING)
    else if exists i :: 0 <= i < |request.rawPath.value| && request.rawPath.value[i] >= 0x80 then
      Err(RAW_PATH_NOT_ASCII)
    else
      var path := Widen(request.rawPath.value);
      var _ :- Need(IsRawPath(path), RAW_PATH_INVALID);
      Ok(path)
  }

  /** A raw path is refused as missing, as not ASCII, or as no absolute path with one leading slash and
      without query, fragment, backslash and control characters; otherwise it is the path. */
  lemma RawPathIsExact(request: Request)
    ensures var r, raw := RawPath(request), request.rawPath;
      && (r == Err(Format("capability_request_raw_path_missing")) <==> raw.None? || raw.value == [])
      && (r == Err(Format("capability_request_raw_path_not_ascii")) <==>
            raw.Some? && raw.value != [] && !IsAscii(Widen(raw.value)))
      && (r.Ok? <==>
            && raw.Some? && IsAscii(Widen(raw.value))
            && Lit("/") <= Widen(raw.value) && !(Lit("//") <= Widen(raw.value))
            && IsAbsolutePath(Widen(raw.value)))
      && (r.Ok? ==> r.value == Widen(raw.value))
  {
    assert Lit("/") == [47] && Lit("//") == [47, 47] && Lit("?") == [63] && Lit("#") == [35] && Lit("\\") == [92];
    RawPathCodesDiffer();
    if request.rawPath.Some? {
      var raw := request.rawPath.value;
      assert IsAscii(Widen(raw)) <==> forall i | 0 <= i < |raw| :: raw[i] < 0x80;
      assert Lit("/") <= Widen(raw) <==> raw != [] && raw[0] == 47;
      assert Lit("//") <= Widen(raw) <==> |raw| >= 2 && raw[0] == 47 && raw[1] == 47;
    }
  }

  lemma RawPathCodesDiffer()
    ensures RAW_PATH_MISSING != RAW_PATH_NOT_ASCII && RAW_PATH_INVALID != RAW_PATH_NOT_ASCII
    ensures RAW_PATH_MISSING != RAW_PATH_INVALID
  {
    assert RAW_PATH_MISSING.code[28] == 'm' && RAW_PATH_INVALID.code[28] == 'i';
    assert |RAW_PATH_MISSING.code| == 35 && |RAW_PATH_NOT_ASCII.code| == 37;
  }

  function ReceiverTransport(dependency: Dependency, request: Request): (r: Result<Transport>)
    ensures r.Ok? ==> ValidTransport(r.value)
  {
    var path :- RawPath(request);
    var t := Transport(dependency.transportType, dependency.service, Upper(request.verb), path,
                       dependency.authProfile, dependency.tlsAliasProfile);
    var _ :- Need(ValidTransport(t), REQUEST_INVALID);
    Ok(t)
  }

  /** The pattern `^[!#$%&'*+.^_`|~0-9A-Za-z-]+$`. */
  predicate IsHttpToken(t: Text) {
    t != [] && forall i | 0 <= i < |t| :: IsMethodChar(t[i]) || 97 <= t[i] <= 122
  }

  predicate IsAuthValue(t: Text) {
    t != [] && 13 !in t && 10 !in t
  }

  function ResolveItems(items: seq<(Text, Text)>): Result<map<Text, Text>> {
    if items == [] then Ok(map[])
    else
      var (key, value) := items[|items| - 1];
      var front :- ResolveItems(items[..|items| - 1]);
      var _ :- Need(IsHttpToken(key), AUTH_NAME_INVALID);
      var _ :- Need(IsAuthValue(value), AUTH_VALUE_INVALID);
      Ok(front[key := value])
  }

  /** `_resolved_auth_headers`. */
  function ResolveAuth(auth: AuthSource): Result<map<Text, Text>> {
    match auth
    case NoAuth => Ok(map[])
    case Supplied(r) =>
      var items :- r;
      ResolveItems(items)
  }

  predicate IsAuthItem(item: (Text, Text)) {
    IsHttpToken(item.0) && IsAuthValue(item.1)
  }

  lemma {:induction false} ItemsResolve(items: seq<(Text, Text)>)
    ensures ResolveItems(items).Ok? <==> forall i | 0 <= i < |items| :: IsAuthItem(items[i])
    ensures ResolveItems(items).Ok? ==> (ResolveItems(items).value == map[] <==> items == [])
    ensures ResolveItems(items).Ok? ==> forall i | 0 <= i < |items| :: IsLastOf(items, i) ==>
      items[i].0 in ResolveItems(items).value && ResolveItems(items).value[items[i].0] == items[i].1
    ensures ResolveItems(items).Ok? ==> forall k | k in ResolveItems(items).value :: exists i ::
      0 <= i < |items| && items[i].0 == k
  {
    if items != [] {
      var front, last := items[..|items| - 1], items[|items| - 1];
      ItemsResolve(front);
      assert items == front + [last];
      if ResolveItems(items).Ok? {
        assert last.0 in ResolveItems(items).value;
        ResolvedSoFar(items);
      }
    }
  }

  /** No later item has the same name; a mapping has each name once. */
  predicate IsLastOf(items: seq<(Text, Text)>, i: int) {
    0 <= i < |items| && forall j | i < j < |items| :: items[j].0 != items[i].0
  }

  lemma ResolvedSoFar(items: seq<(Text, Text)>)
    requires items != [] && ResolveItems(items).Ok?
    requires var front := items[..|items| - 1];
      && ResolveItems(front).Ok?
      && (forall i | 0 <= i < |front| :: IsLastOf(front, i) ==>
            front[i].0 in ResolveItems(front).value && ResolveItems(front).value[front[i].0] == front[i].1)
      && (forall k | k in ResolveItems(front).value :: exists i :: 0 <= i < |front| && front[i].0 == k)
    ensures forall i | 0 <= i < |items| :: IsLastOf(items, i) ==>
      items[i].0 in ResolveItems(items).value && ResolveItems(items).value[items[i].0] == items[i].1
    ensures forall k | k in ResolveItems(items).value :: exists i :: 0 <= i < |items| && items[i].0 == k
  {
    var last := items[|items| - 1];
    OneMoreItem(items, ResolveItems(items[..|items| - 1]).value);
    assert ResolveItems(items).value == ResolveItems(items[..|items| - 1]).value[last.0 := last.1];
  }

  lemma OneMoreItem(items: seq<(Text, Text)>, found: map<Text, Text>)
    requires items != []
    requires var front := items[..|items| - 1];
      && (forall i | 0 <= i < |front| :: IsLastOf(front, i) ==> front[i].0 in found && found[front[i].0] == front[i].1)
      && (forall k | k in found :: exists i :: 0 <= i < |front| && front[i].0 == k)
    ensures var r := found[items[|items| - 1].0 := items[|items| - 1].1];
      && (forall i | 0 <= i < |items| :: IsLastOf(items, i) ==> items[i].0 in r && r[items[i].0] == items[i].1)
      && (forall k | k in r :: exists i :: 0 <= i < |items| && items[i].0 == k)
  {
    var front, last := items[..|items| - 1], items[|items| - 1];
    var r := found[last.0 := last.1];
    forall i | 0 <= i < |items| && IsLastOf(items, i) ensures items[i].0 in r && r[items[i].0] == items[i].1 {
      if i < |front| {
        assert IsLastOf(front, i) && front[i] == items[i];
      }
    }
    forall k | k in r ensures exists i :: 0 <= i < |items| && items[i].0 == k {
      if k == last.0 {
        assert items[|items| - 1].0 == k;
      } else {
        var i :| 0 <= i < |front| && front[i].0 == k;
        assert items[i].0 == k;
      }
    }
  }

  predicate IsGoodSource(auth: AuthSource) {
    auth.NoAuth? || (auth.items.Ok? && forall i | 0 <= i < |auth.items.value| :: IsAuthItem(auth.items.value[i]))
  }

  /** No source at all, or an empty mapping. */
  predicate IsEmptySource(auth: AuthSource) {
    auth == NoAuth || auth == Supplied(Ok([]))
  }

  /** A header name is a token of RFC 9110, section 5.6.2; a value is not empty and has no line break. */
  lemma AuthItemSpelledOut(item: (Text, Text))
    ensures IsAuthItem(item) <==>
      && item.0 != [] && (forall i | 0 <= i < |item.0| :: IsMethodCharacter(item.0[i]) || item.0[i] in SMALL_LETTERS)
      && item.1 != [] && Lit("\r")[0] !in item.1 && Lit("\n")[0] !in item.1
  {
    forall c: CodePoint ensures IsMethodChar(c) || 97 <= c <= 122 <==> IsMethodCharacter(c) || c in SMALL_LETTERS {
      MethodCharacters(c);
      SmallLetters(c);
    }
  }

  lemma ResolveAuthIsExact(auth: AuthSource)
    ensures ResolveAuth(auth).Ok? <==> IsGoodSource(auth)
    ensures ResolveAuth(auth).Ok? ==> (ResolveAuth(auth).value == map[] <==> IsEmptySource(auth))
  {
    if auth.Supplied? && auth.items.Ok? {
      ItemsResolve(auth.items.value);
    }
  }

  predicate ValidRedemption(r: Redemption) {
    && 1 <= |r.grantId| <= 200 && IsHash(r.grantHash) && IsHash(r.tokenFingerprint)
    && 1 <= |r.receiverId| <= 200 && 1 <= |r.audience| <= 200 && IsHash(r.requestHash)
  }

  function MakeRedemption(rt: Runtime, dependency: Dependency, token: Text, terms: GrantClaims, transport: Transport):
    Result<Redemption>
  {
    var fingerprint :- TokenFingerprint(rt, token);
    var r := Redemption(terms.grantId, terms.grantHash, fingerprint, dependency.receiverId,
                        terms.audience, terms.requestHash, transport);
    var _ :- Need(ValidRedemption(r), REQUEST_INVALID);
    Ok(r)
  }

  /** Rebuild the request, build the transport, verify the token against both. */
  function VerifyRequest(rt: Runtime, call: Inbound, token: Text, bound: map<Text, Text>):
    Result<(VerifiedGrant, Transport)>
  {
    var payload :- Reconstruct(rt, call.request);
    var transport :- ReceiverTransport(call.dependency, call.request);
    var grant :- Verify(rt, call.dependency.verifier, token,
                        Presented(payload, DumpTransport(transport), bound, call.now));
    Ok((grant, transport))
  }

  /** The checks inside the second `try` block, in order. */
  function CheckRequest(rt: Runtime, call: Inbound, token: Text, bound: map<Text, Text>):
    Result<(VerifiedGrant, Redemption, map<Text, Text>)>
  {
    var (grant, transport) :- VerifyRequest(rt, call, token, bound);
    var _ :- CheckRequired(rt, grant, call.dependency.required);
    var redemption :- MakeRedemption(rt, call.dependency, token, grant.terms, transport);
    var authHeaders :- ResolveAuth(call.auth);
    Ok((grant, redemption, authHeaders))
  }

  function Refuse(e: Error): Prepared {
    Refusal(if e.Format? then 400 else 403, e.code)
  }

  /** Everything before the redeem call. */
  function Prepare(rt: Runtime, call: Inbound): Prepared {
    match SingleHeader(call.request.headers, GRANT_HEADER)
    case Err(e) => Refusal(401, e.code)
    case Ok(token) =>
      match CollectHeaders(call.request.headers, BOUND_HEADER_NAMES)
      case Err(e) => Refusal(401, e.code)
      case Ok(bound) =>
        match CheckRequest(rt, call, token, bound)
        case Err(e) => Refuse(e)
        case Ok((grant, redemption, authHeaders)) => Ready(grant, redemption, authHeaders)
  }

  /** After the header checks, a malformed request or grant is refused with 400 and a denial with 403,
      each with its own code. */
  lemma RefusalsAreExact(rt: Runtime, call: Inbound, token: Text, bound: map<Text, Text>)
    requires SingleHeader(call.request.headers, GRANT_HEADER) == Ok(token)
    requires CollectHeaders(call.request.headers, BOUND_HEADER_NAMES) == Ok(bound)
    ensures var checked := CheckRequest(rt, call, token, bound);
      && (checked.Err? && checked.error.Format? ==> Prepare(rt, call) == Refusal(400, checked.error.code))
      && (checked.Err? && checked.error.Denied? ==> Prepare(rt, call) == Refusal(403, checked.error.code))
      && (checked.Ok? ==> Prepare(rt, call).Ready?)
  {
  }

  /** The request is rebuilt first, then its transport, then the token is verified: the first step that
      fails names the error, and a failing step hides all later ones. */
  lemma VerifySequenceIsExact(rt: Runtime, call: Inbound, token: Text, bound: map<Text, Text>)
    ensures Reconstruct(rt, call.request).Err? ==>
      VerifyRequest(rt, call, token, bound) == Err(Reconstruct(rt, call.request).error)
    ensures Reconstruct(rt, call.request).Ok? && RawPath(call.request).Err? ==>
      VerifyRequest(rt, call, token, bound) == Err(RawPath(call.request).error)
    ensures
      (Reconstruct(rt, call.request).Ok? && RawPath(call.request).Ok?
       && ReceiverTransport(call.dependency, call.request).Err?)
      ==> VerifyRequest(rt, call, token, bound) == Err(Format("capability_grant_request_invalid"))
  {
  }

  /** Every check of the second `try` block has passed with this grant and this redemption. */
  ghost predicate Passed(
    rt: Runtime, call: Inbound, token: Text, bound: map<Text, Text>, grant: VerifiedGrant, redemption: Redemption)
  {
    && VerifyRequest(rt, call, token, bound) == Ok((grant, redemption.transport))
    && CheckRequired(rt, grant, call.dependency.required).Ok?
    && MakeRedemption(rt, call.dependency, token, grant.terms, redemption.transport) == Ok(redemption)
    && ResolveAuth(call.auth).Ok?
  }

  lemma PassedIsChecked(
    rt: Runtime, call: Inbound, token: Text, bound: map<Text, Text>, grant: VerifiedGrant, redemption: Redemption)
    requires Passed(rt, call, token, bound, grant, redemption)
    ensures CheckRequest(rt, call, token, bound) == Ok((grant, redemption, ResolveAuth(call.auth).value))
  {
  }

  lemma CheckedIsPassed(rt: Runtime, call: Inbound, token: Text, bound: map<Text, Text>)
    requires CheckRequest(rt, call, token, bound).Ok?
    ensures var (grant, redemption, authHeaders) := CheckRequest(rt, call, token, bound).value;
      Passed(rt, call, token, bound, grant, redemption)
  {
    var (grant, transport) := VerifyRequest(rt, call, token, bound).value;
    MadeRedemption(rt, call.dependency, token, grant.terms, transport,
                   MakeRedemption(rt, call.dependency, token, grant.terms, transport).value);
  }

  /** A bad header name or value refuses the request before the call; missing headers do not: the
      authority is called without any exactly when there is no source or an empty mapping. A blank
      value is a good one. */
  lemma AuthHeadersBeforeTheCall(rt: Runtime, call: Inbound)
    ensures !IsGoodSource(call.auth) ==> !Prepare(rt, call).Ready?
    ensures Prepare(rt, call).Ready? ==> (Prepare(rt, call).authHeaders == map[] <==> IsEmptySource(call.auth))
  {
    ResolveAuthIsExact(call.auth);
    var token := SingleHeader(call.request.headers, GRANT_HEADER);
    var bound := CollectHeaders(call.request.headers, BOUND_HEADER_NAMES);
    if token.Ok? && bound.Ok? && CheckRequest(rt, call, token.value, bound.value).Ok? {
      CheckedResolves(rt, call, token.value, bound.value);
    }
  }

  lemma CheckedResolves(rt: Runtime, call: Inbound, token: Text, bound: map<Text, Text>)
    requires CheckRequest(rt, call, token, bound).Ok?
    ensures ResolveAuth(call.auth) == Ok(CheckRequest(rt, call, token, bound).value.2)
  {
  }

  /** What a request that reaches the authority has proved, and whose redemption it carries. */
  ghost predicate Entitled(rt: Runtime, call: Inbound, grant: VerifiedGrant, redemption: Redemption) {
    && SingleHeader(call.request.headers, GRANT_HEADER).Ok?
    && CollectHeaders(call.request.headers, BOUND_HEADER_NAMES).Ok?
    && Passed(rt, call, SingleHeader(call.request.headers, GRANT_HEADER).value,
              CollectHeaders(call.request.headers, BOUND_HEADER_NAMES).value, grant, redemption)
  }

  /** A request is let through to the authority iff it passed every check. */
  lemma ReadyIsEntitled(rt: Runtime, call: Inbound, grant: VerifiedGrant, redemption: Redemption)
    ensures (Prepare(rt, call).Ready? && Prepare(rt, call).grant == grant && Prepare(rt, call).redemption == redemption)
       <==> Entitled(rt, call, grant, redemption)
  {
    var token := SingleHeader(call.request.headers, GRANT_HEADER);
    var bound := CollectHeaders(call.request.headers, BOUND_HEADER_NAMES);
    if token.Ok? && bound.Ok? {
      if CheckRequest(rt, call, token.value, bound.value).Ok? {
        CheckedIsPassed(rt, call, token.value, bound.value);
      }
      if Passed(rt, call, token.value, bound.value, grant, redemption) {
        PassedIsChecked(rt, call, token.value, bound.value, grant, redemption);
      }
    }
  }

  /** A verified request was rebuilt, and its grant is genuine and bound to what was rebuilt. */
  lemma VerifiedRequestIsBound(
    rt: Runtime, call: Inbound, token: Text, bound: map<Text, Text>, grant: VerifiedGrant, transport: Transport)
    returns (payload: map<Text, Json>, signature: Bytes)
    requires FloatsRoundTrip(rt) && VerifyRequest(rt, call, token, bound) == Ok((grant, transport))
    ensures Reconstruct(rt, call.request).Ok?
    ensures IsHashOf(rt, grant.terms.requestHash, Reconstruct(rt, call.request).value)
    ensures ReceiverTransport(call.dependency, call.request) == Ok(transport) && transport == grant.terms.transport
    ensures grant.terms.audience == call.dependency.verifier.audience
    ensures Genuine(rt, call.dependency.verifier.publicKey, token, payload, signature)
    ensures Authorizes(rt, call.dependency.verifier, payload, grant.terms,
      Presented(Reconstruct(rt, call.request).value, DumpTransport(transport), bound, call.now))
    ensures grant.claims == Freeze(Obj(payload))
  {
    var seen := Presented(Reconstruct(rt, call.request).value, DumpTransport(transport), bound, call.now);
    payload, signature := AcceptedIsGenuine(rt, call.dependency.verifier, token, seen);
    BoundIsRead(rt, grant.terms, seen);
    ReadDumpedTransport(transport);
  }

  lemma MadeRedemption(
    rt: Runtime, dependency: Dependency, token: Text, terms: GrantClaims, transport: Transport, r: Redemption)
    requires MakeRedemption(rt, dependency, token, terms, transport) == Ok(r)
    ensures r.grantId == terms.grantId && r.grantHash == terms.grantHash && r.audience == terms.audience
    ensures r.requestHash == terms.requestHash && r.transport == transport && r.receiverId == dependency.receiverId
    ensures TokenFingerprint(rt, token) == Ok(r.tokenFingerprint)
  {
  }

  /** The redemption names its own request's grant, hashes, token and transport. */
  lemma RedemptionNamesItsRequest(rt: Runtime, call: Inbound, grant: VerifiedGrant, redemption: Redemption)
    requires FloatsRoundTrip(rt) && Entitled(rt, call, grant, redemption)
    ensures redemption.grantId == grant.terms.grantId && redemption.grantHash == grant.terms.grantHash
    ensures redemption.audience == grant.terms.audience == call.dependency.verifier.audience
    ensures redemption.receiverId == call.dependency.receiverId
    ensures TokenFingerprint(rt, SingleHeader(call.request.headers, GRANT_HEADER).value)
         == Ok(redemption.tokenFingerprint)
    ensures Reconstruct(rt, call.request).Ok?
    ensures IsHashOf(rt, redemption.requestHash, Reconstruct(rt, call.request).value)
    ensures ReceiverTransport(call.dependency, call.request) == Ok(redemption.transport)
    ensures redemption.transport == grant.terms.transport
  {
    var token := SingleHeader(call.request.headers, GRANT_HEADER).value;
    var bound := CollectHeaders(call.request.headers, BOUND_HEADER_NAMES).value;
    var payload, signature := VerifiedRequestIsBound(rt, call, token, bound, grant, redemption.transport);
    MadeRedemption(rt, call.dependency, token, grant.terms, redemption.transport, redemption);
  }
}
