/** `CapabilityGrantVerifier.verify`: one trust tuple against one exact request. */
module Verifiers {
  import opened Base
  import opened Json
  import opened JsonPrint
  import opened JsonParse
  import opened Hashing
  import opened Runtimes
  import opened Claims
  import Base64Url

  const DOT: CodePoint := 46

  const INVALID_TOKEN := Format("invalid_capability_grant_token")
  const SIGNATURE_LENGTH := Format("ed25519_signature_length_invalid")
  const SIGNATURE_INVALID := Denied("capability_grant_signature_invalid")
  const NOT_OBJECT := Format("capability_grant_claims_not_object")
  const NOT_CANONICAL := Format("capability_grant_claims_not_canonical")
  const NOT_DETACHED := Format("capability_grant_signature_must_be_detached")
  const CLAIMS_INVALID := Format("capability_grant_claims_invalid")
  const HASH_MISMATCH := Denied("capability_grant_hash_mismatch")
  const ISSUER_MISMATCH := Denied("capability_grant_issuer_mismatch")
  const KEY_MISMATCH := Denied("capability_grant_key_mismatch")
  const AUDIENCE_MISMATCH := Denied("capability_grant_audience_mismatch")
  const TIME_BOUNDS := Format("capability_grant_time_bounds_invalid")
  const NOW_INVALID := Format("capability_grant_now_invalid")
  const NOT_YET_VALID := Denied("capability_grant_not_yet_valid")
  const EXPIRED := Denied("capability_grant_expired")
  const REQUEST_MISMATCH := Denied("capability_grant_request_mismatch")
  const TRANSPORT_INVALID := Format("capability_grant_expected_transport_invalid")
  const TRANSPORT_MISMATCH := Denied("capability_grant_transport_mismatch")
  const HEADER_MISSING := Denied("capability_grant_bound_header_missing")
  const HEADER_MISMATCH := Denied("capability_grant_bound_header_mismatch")

  /** The trusted issuer, key and audience. */
  datatype Verifier = Verifier(issuer: Text, keyId: Text, audience: Text, publicKey: Bytes)

  // ----- immutable claims -----

  /** Claims after freezing: read-only mappings, tuples and scalars. */
  datatype Frozen = Scalar(v: Json) | Tuple(items: seq<Frozen>) | Proxy(fields: map<Text, Frozen>)

  function Freeze(v: Json): Frozen {
    match v
    case Obj(fields) => Proxy(map k | k in fields :: Freeze(fields[k]))
    case Arr(items) => Tuple(seq(|items|, i requires 0 <= i < |items| => Freeze(items[i])))
    case _ => Scalar(v)
  }

  function Thaw(f: Frozen): Json {
    match f
    case Proxy(fields) => Obj(map k | k in fields :: Thaw(fields[k]))
    case Tuple(items) => Arr(seq(|items|, i requires 0 <= i < |items| => Thaw(items[i])))
    case Scalar(v) => v
  }

  /** Thawing gives back what was frozen, at every depth. */
  lemma {:induction false} ThawFreeze(v: Json)
    ensures Thaw(Freeze(v)) == v
  {
    match v
    case Obj(fields) =>
      forall k | k in fields ensures Thaw(Freeze(fields[k])) == fields[k] {
        ThawFreeze(fields[k]);
      }
      assert Thaw(Freeze(v)).fields == fields;
    case Arr(items) =>
      forall i | 0 <= i < |items| ensures Thaw(Freeze(items[i])) == items[i] {
        ThawFreeze(items[i]);
      }
      assert Thaw(Freeze(v)).items == items;
    case _ =>
  }

  /** Nothing mutable is left: lists and dicts are tuples and read-only mappings at every depth. */
  ghost predicate IsFrozen(v: Json, f: Frozen) {
    match v
    case Obj(fields) => f.Proxy? && f.fields.Keys == fields.Keys && forall k | k in fields :: IsFrozen(fields[k], f.fields[k])
    case Arr(items) => f.Tuple? && |f.items| == |items| && forall i | 0 <= i < |items| :: IsFrozen(items[i], f.items[i])
    case _ => f == Scalar(v)
  }

  lemma {:induction false} FreezeIsFrozen(v: Json)
    ensures IsFrozen(v, Freeze(v))
  {
    match v
    case Obj(fields) =>
      forall k | k in fields ensures IsFrozen(fields[k], Freeze(fields[k])) {
        FreezeIsFrozen(fields[k]);
      }
    case Arr(items) =>
      forall i | 0 <= i < |items| ensures IsFrozen(items[i], Freeze(items[i])) {
        FreezeIsFrozen(items[i]);
      }
    case _ =>
  }

  datatype VerifiedGrant = VerifiedGrant(terms: GrantClaims, claims: Frozen)

  // ----- the token -----

  function Count(t: Text, c: CodePoint): nat {
    if t == [] then 0 else (if t[0] == c then 1 else 0) + Count(t[1..], c)
  }

  function Before(t: Text, c: CodePoint): (r: Text)
    ensures |r| <= |t|
  {
    if t == [] || t[0] == c then [] else [t[0]] + Before(t[1..], c)
  }

  /** The two parts of a token with exactly one dot. */
  function SplitToken(token: Text): Result<(Text, Text)> {
    var first := Before(token, DOT);
    if Count(token, DOT) == 1 && |first| < |token| then Ok((first, token[|first| + 1..])) else Err(INVALID_TOKEN)
  }

  lemma {:induction false} CountAbsent(t: Text, c: CodePoint)
    ensures Count(t, c) == 0 <==> c !in t
  {
    if t != [] {
      CountAbsent(t[1..], c);
      assert t == [t[0]] + t[1..];
    }
  }

  lemma {:induction false} SplitAtDot(p: Text, s: Text, c: CodePoint)
    requires c !in p
    ensures Before(p + ([c] + s), c) == p
    ensures Count(p + ([c] + s), c) == 1 + Count(s, c)
  {
    if p == [] {
      assert p + ([c] + s) == [c] + s;
      ConsTail(c, s);
    } else {
      assert p == [p[0]] + p[1..];
      DropAppend(p, 1, [c] + s);
      SplitAtDot(p[1..], s, c);
    }
  }

  lemma {:induction false} BeforeStops(t: Text, c: CodePoint)
    requires Count(t, c) > 0
    ensures var n := |Before(t, c)|; n < |t| && t[..n] == Before(t, c) && t[n] == c
    ensures c !in Before(t, c)
    ensures Count(t[|Before(t, c)| + 1..], c) == Count(t, c) - 1
  {
    if t[0] != c {
      BeforeStops(t[1..], c);
      var n := |Before(t[1..], c)|;
      assert t[..n + 1] == [t[0]] + t[1..][..n];
      assert t[n + 2..] == t[1..][n + 1..];
    }
  }

  /** A token splits into two parts iff it is the parts with one dot between them. */
  lemma SplitTokenExact(token: Text, p: Text, s: Text)
    ensures SplitToken(token) == Ok((p, s)) <==> token == p + ([DOT] + s) && DOT !in p && DOT !in s
  {
    if token == p + ([DOT] + s) && DOT !in p && DOT !in s {
      SplitAtDot(p, s, DOT);
      CountAbsent(s, DOT);
      SplitAppend(p, [DOT] + s);
      assert token[|p| + 1..] == s;
    }
    if SplitToken(token) == Ok((p, s)) {
      BeforeStops(token, DOT);
      CountAbsent(s, DOT);
      assert token == p + ([DOT] + s);
    }
  }

  /** A compact token: the payload bytes and the signature bytes, each in base64url. */
  function TokenText(payload: Bytes, signature: Bytes): Text {
    Base64Url.Encode(payload) + ([DOT] + Base64Url.Encode(signature))
  }

  lemma NoDotInBase64(b: Bytes)
    ensures DOT !in Base64Url.Encode(b)
  {
    if b != [] {
      Base64Url.DecodeEncode(b);
      Base64Url.DecodeAcceptsCanonical(Base64Url.Encode(b));
    }
  }

  // ----- verification -----

  /** The payload gate: parse strictly, require an object, print it again and compare. */
  function PayloadGate(rt: Runtime, payloadBytes: Bytes): Result<map<Text, Json>> {
    var payload :- StrictLoads(rt, payloadBytes);
    var _ :- Need(payload.Obj?, NOT_OBJECT);
    var again :- CanonicalBytes(rt, payload);
    var _ :- Need(again == payloadBytes, NOT_CANONICAL);
    Ok(payload.fields)
  }

  /** The two segments, the signature over the payload bytes, the gate, and no
      signature among the claims. */
  function OpenToken(rt: Runtime, publicKey: Bytes, token: Text): Result<map<Text, Json>> {
    var (payloadPart, signaturePart) :- SplitToken(token);
    var payloadBytes :- Base64Url.Decode(payloadPart);
    var signature :- Base64Url.Decode(signaturePart);
    var _ :- Need(|signature| == 64, SIGNATURE_LENGTH);
    var _ :- Need(rt.verifySignature(publicKey, signature, payloadBytes), SIGNATURE_INVALID);
    var payload :- PayloadGate(rt, payloadBytes);
    var _ :- Need(SIGNATURE !in payload, NOT_DETACHED);
    Ok(payload)
  }

  /** The schema, and the hash over the claims without `grant_hash`. */
  function CheckedClaims(rt: Runtime, payload: map<Text, Json>): Result<GrantClaims> {
    if !MatchesSchema(rt, payload) then Err(CLAIMS_INVALID)
    else
      var claims := ReadClaims(rt, payload);
      var expected :- CanonicalSha256(rt, Obj(payload - {GRANT_HASH}));
      var _ :- Need(claims.grantHash == expected, HASH_MISMATCH);
      Ok(claims)
  }

  /** The trust tuple and the time bounds. */
  function CheckTrust(verifier: Verifier, claims: GrantClaims, now: Double): Result<()> {
    var _ :- Need(claims.issuer == verifier.issuer, ISSUER_MISMATCH);
    var _ :- Need(claims.keyId == verifier.keyId, KEY_MISMATCH);
    var _ :- Need(claims.audience == verifier.audience, AUDIENCE_MISMATCH);
    var _ :- Need(ValueOf(claims.issuedAt) <= ValueOf(claims.notBefore) < ValueOf(claims.expiresAt), TIME_BOUNDS);
    if !now.Finite? then Err(NOW_INVALID)
    else
      var _ :- Need(ValueOf(claims.notBefore) <= ValueOf(now), NOT_YET_VALID);
      Need(ValueOf(now) < ValueOf(claims.expiresAt), EXPIRED)
  }

  const GRANT_ID_HEADER := Lit("X-AI-Local-Capability-Grant-ID")
  const TASK_ID_HEADER := Lit("X-Task-ID")
  const TRACE_ID_HEADER := Lit("X-Trace-ID")
  const ACTION_ID_HEADER := Lit("X-Agentic-Action-ID")
  const ATTEMPT_ID_HEADER := Lit("X-Agentic-Node-Attempt")
  const IDEMPOTENCY_HEADER := Lit("Idempotency-Key")

  /** The bound headers in table order, each with the claim it must equal. */
  function BoundHeaders(claims: GrantClaims): seq<(Text, Text)> {
    [(GRANT_ID_HEADER, claims.grantId),
     (TASK_ID_HEADER, claims.taskId),
     (TRACE_ID_HEADER, claims.traceId),
     (ACTION_ID_HEADER, claims.actionId),
     (ATTEMPT_ID_HEADER, claims.attemptId),
     (IDEMPOTENCY_HEADER, claims.idempotencyKey)]
  }

  predicate HeaderAgrees(headers: map<Text, Text>, bound: (Text, Text)) {
    bound.0 in headers && headers[bound.0] != [] && headers[bound.0] == bound.1
  }

  /** `_verify_bound_headers` stops at the first header that is missing or differs. */
  function CheckHeaders(headers: map<Text, Text>, bound: seq<(Text, Text)>): (r: Result<()>)
    ensures r.Ok? <==> forall i | 0 <= i < |bound| :: HeaderAgrees(headers, bound[i])
  {
    if bound == [] then Ok(())
    else
      var _ :- Need(bound[0].0 in headers && headers[bound[0].0] != [], HEADER_MISSING);
      var _ :- Need(headers[bound[0].0] == bound[0].1, HEADER_MISMATCH);
      CheckHeaders(headers, bound[1..])
  }

  /** What the receiver holds against the token: the request value, its own transport, the bound
      headers and the clock. */
  datatype Presented = Presented(request: Json, transport: Json, headers: map<Text, Text>, now: Double)

  /** The request hash, the transport and the bound headers. */
  function CheckBinding(rt: Runtime, claims: GrantClaims, seen: Presented): Result<()> {
    var expected :- CanonicalSha256(rt, seen.request);
    var _ :- Need(claims.requestHash == expected, REQUEST_MISMATCH);
    match ReadTransport(seen.transport)
    case None => Err(TRANSPORT_INVALID)
    case Some(t) =>
      var _ :- Need(claims.transport == t, TRANSPORT_MISMATCH);
      CheckHeaders(seen.headers, BoundHeaders(claims))
  }

  /** `verify`: the checks in the order of the program, so the first failing one names the error. */
  function Verify(rt: Runtime, verifier: Verifier, token: Text, seen: Presented): Result<VerifiedGrant> {
    var payload :- OpenToken(rt, verifier.publicKey, token);
    var claims :- CheckedClaims(rt, payload);
    var _ :- CheckTrust(verifier, claims, seen.now);
    var _ :- CheckBinding(rt, claims, seen);
    Ok(VerifiedGrant(claims, Freeze(Obj(payload))))
  }
}
