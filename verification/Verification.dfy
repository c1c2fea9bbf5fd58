/** `verify` in the program's own form, raising checks over local state, and what its answers and
    its error codes tell the caller. */
module Verification {
  import opened Base
  import opened Json
  import opened JsonPrint
  import opened JsonParse
  import opened JsonRoundTrip
  import opened JsonTheorems
  import opened Hashing
  import opened Runtimes
  import opened Claims
  import opened Contracts
  import opened Verifiers
  import opened VerifierTheorems
  import Base64Url
  import Utf8

  // ----- which codes belong to the token, and which to what it says -----

  const CLAIM_ERRORS := {CLAIMS_INVALID, HASH_MISMATCH}
  const TRUST_ERRORS := {
    ISSUER_MISMATCH, KEY_MISMATCH, AUDIENCE_MISMATCH, TIME_BOUNDS, NOW_INVALID, NOT_YET_VALID, EXPIRED}
  const BINDING_ERRORS := {REQUEST_MISMATCH, TRANSPORT_INVALID, TRANSPORT_MISMATCH, HEADER_MISSING, HEADER_MISMATCH}

  /** The code speaks about signed claims, not about the token that carries them. */
  predicate IsLate(e: Error) {
    e in CLAIM_ERRORS || e in TRUST_ERRORS || e in BINDING_ERRORS
  }

  const JSON_ERRORS := {
    INVALID, MISSING, NOT_UTF8, NON_FINITE, DUPLICATE_KEY, Format("json_invalid_unicode"), CANONICALIZATION_FAILED}

  predicate IsEarly(e: Error) {
    || e in JSON_ERRORS
    || e in {INVALID_TOKEN, Base64Url.INVALID_BASE64, Base64Url.NON_CANONICAL_BASE64, SIGNATURE_LENGTH,
             SIGNATURE_INVALID, NOT_OBJECT, NOT_CANONICAL, NOT_DETACHED}
  }

  lemma EarlyIsNotLate(e: Error)
    requires IsEarly(e)
    ensures !IsLate(e)
  {
    assert SIGNATURE_INVALID.code[17] != AUDIENCE_MISMATCH.code[17];
    assert NOT_DETACHED.code[17] != TRANSPORT_INVALID.code[17];
    assert CANONICALIZATION_FAILED.code[0] != NOW_INVALID.code[0];
  }

  // ----- the reader's own errors -----

  lemma {:induction false} StringErrors(s: Text)
    ensures ParseString(s).Err? ==> ParseString(s).error == INVALID
    decreases |s|
  {
    if s != [] && s[0] >= 0x20 && s[0] != QUOTE {
      if s[0] != BACKSLASH {
        StringErrors(s[1..]);
      } else if ParseEscape(s[1..]).Ok? {
        StringErrors(ParseEscape(s[1..]).value.1);
      }
    }
  }

  lemma {:induction false} ValueErrors(rt: Runtime, strict: bool, s: Text)
    ensures ParseValue(rt, strict, s).Err? ==> ParseValue(rt, strict, s).error in {INVALID, NON_FINITE, DUPLICATE_KEY}
    decreases |s|, 0
  {
    if s != [] && s[0] == QUOTE {
      StringErrors(s[1..]);
    } else if s != [] && s[0] == OPEN_BRACE {
      MembersErrors(rt, strict, SkipBlanks(s[1..]));
    } else if s != [] && s[0] == OPEN_BRACKET {
      ItemsErrors(rt, strict, SkipBlanks(s[1..]));
    }
  }

  lemma {:induction false} ItemsErrors(rt: Runtime, strict: bool, s: Text)
    ensures ParseItems(rt, strict, s).Err? ==> ParseItems(rt, strict, s).error in {INVALID, NON_FINITE, DUPLICATE_KEY}
    decreases |s|, 1
  {
    ValueErrors(rt, strict, s);
    if ParseValue(rt, strict, s).Ok? {
      var after := SkipBlanks(ParseValue(rt, strict, s).value.1);
      if after != [] && after[0] == COMMA {
        ItemsErrors(rt, strict, SkipBlanks(after[1..]));
      }
    }
  }

  lemma {:induction false} MembersErrors(rt: Runtime, strict: bool, s: Text)
    ensures ParseMembers(rt, strict, s).Err? ==>
      ParseMembers(rt, strict, s).error in {INVALID, NON_FINITE, DUPLICATE_KEY}
    decreases |s|, 1
  {
    if s != [] && s[0] == QUOTE {
      StringErrors(s[1..]);
      if ParseString(s[1..]).Ok? {
        var colon := SkipBlanks(ParseString(s[1..]).value.1);
        if colon != [] && colon[0] == COLON {
          var item := SkipBlanks(colon[1..]);
          ValueErrors(rt, strict, item);
          if ParseValue(rt, strict, item).Ok? {
            var after := SkipBlanks(ParseValue(rt, strict, item).value.1);
            if after != [] && after[0] == COMMA {
              MembersErrors(rt, strict, SkipBlanks(after[1..]));
            }
          }
        }
      }
    }
  }

  lemma LoadErrors(rt: Runtime, b: Bytes)
    ensures StrictLoads(rt, b).Err? ==> StrictLoads(rt, b).error in JSON_ERRORS
  {
    var text := Utf8.Decode(b);
    if text.Some? {
      ValueErrors(rt, true, SkipBlanks(text.value));
    }
  }

  lemma GateErrors(rt: Runtime, b: Bytes)
    ensures PayloadGate(rt, b).Err? ==> IsEarly(PayloadGate(rt, b).error)
  {
    LoadErrors(rt, b);
  }

  lemma TokenCodesAreEarly()
    ensures IsEarly(INVALID_TOKEN) && IsEarly(SIGNATURE_LENGTH) && IsEarly(SIGNATURE_INVALID) && IsEarly(NOT_DETACHED)
    ensures IsEarly(Base64Url.INVALID_BASE64) && IsEarly(Base64Url.NON_CANONICAL_BASE64)
  {
  }

  lemma DecodeErrors(s: Text)
    ensures Base64Url.Decode(s).Err? ==>
      Base64Url.Decode(s).error in {Base64Url.INVALID_BASE64, Base64Url.NON_CANONICAL_BASE64}
  {
  }

  lemma OpenErrors(rt: Runtime, publicKey: Bytes, token: Text)
    ensures OpenToken(rt, publicKey, token).Err? ==> IsEarly(OpenToken(rt, publicKey, token).error)
  {
    TokenCodesAreEarly();
    if SplitToken(token).Ok? {
      var (p, s) := SplitToken(token).value;
      DecodeErrors(p);
      DecodeErrors(s);
      if Base64Url.Decode(p).Ok? {
        GateErrors(rt, Base64Url.Decode(p).value);
      }
    }
  }

  // ----- what the errors mean -----

  /** A code about claims, trust, time, request, transport or headers is only ever given for a token
      whose signature verified over exactly the canonical bytes of its claims. */
  lemma LateErrorsAreSigned(rt: Runtime, verifier: Verifier, token: Text, seen: Presented)
    returns (payload: map<Text, Json>, signature: Bytes)
    requires FloatsRoundTrip(rt)
    requires Verify(rt, verifier, token, seen).Err? && IsLate(Verify(rt, verifier, token, seen).error)
    ensures Genuine(rt, verifier.publicKey, token, payload, signature)
    ensures OpenToken(rt, verifier.publicKey, token) == Ok(payload)
  {
    OpenErrors(rt, verifier.publicKey, token);
    if OpenToken(rt, verifier.publicKey, token).Err? {
      EarlyIsNotLate(OpenToken(rt, verifier.publicKey, token).error);
    }
    payload := OpenToken(rt, verifier.publicKey, token).value;
    signature := OpenedIsGenuine(rt, verifier.publicKey, token);
  }

  lemma LateCodesDiffer()
    ensures |CLAIM_ERRORS| == 2 && |TRUST_ERRORS| == 7 && |BINDING_ERRORS| == 5
    ensures CLAIM_ERRORS !! TRUST_ERRORS && CLAIM_ERRORS !! BINDING_ERRORS && TRUST_ERRORS !! BINDING_ERRORS
  {
    assert HASH_MISMATCH.code[17] != NOT_YET_VALID.code[17];
  }

  /** For a genuine token, each group of codes is given exactly when the claims fail there first:
      unsound claims, sound ones that are not trusted now, trusted ones that are not bound. */
  lemma ErrorGroupsAreExact(
    rt: Runtime, verifier: Verifier, token: Text, seen: Presented, payload: map<Text, Json>, signature: Bytes)
    requires FloatsRoundTrip(rt) && Genuine(rt, verifier.publicKey, token, payload, signature)
    requires Valid(seen.request)
    ensures var r := Verify(rt, verifier, token, seen);
      && (r.Err? && r.error in CLAIM_ERRORS <==> forall claims :: !Sound(rt, payload, claims))
      && (r.Err? && r.error in TRUST_ERRORS <==>
            exists claims :: Sound(rt, payload, claims) && !Trusted(verifier, claims, seen.now))
      && (r.Err? && r.error in BINDING_ERRORS <==>
            exists claims ::
              Sound(rt, payload, claims) && Trusted(verifier, claims, seen.now) && !Bound(rt, claims, seen))
  {
    GenuineOpens(rt, verifier.publicKey, token, payload, signature);
    LateCodesDiffer();
    ClaimStage(rt, payload);
    SoundIsUnique(rt, payload);
    var checked := CheckedClaims(rt, payload);
    if checked.Ok? {
      var claims := checked.value;
      TrustStage(verifier, claims, seen.now);
      BindingStage(rt, claims, seen);
    }
  }

  lemma UnsignedIsHashed(rt: Runtime, payload: map<Text, Json>)
    requires FloatsRoundTrip(rt) && Valid(Obj(payload))
    ensures CanonicalSha256(rt, Obj(payload - {GRANT_HASH})).Ok?
  {
    var rest := payload - {GRANT_HASH};
    assert forall k | k in rest :: k in payload && rest[k] == payload[k];
    assert Valid(Obj(rest));
    CanonicalBytesDefined(rt, Obj(rest));
  }

  lemma CheckedByCase(rt: Runtime, payload: map<Text, Json>)
    ensures !MatchesSchema(rt, payload) ==> CheckedClaims(rt, payload) == Err(CLAIMS_INVALID)
    ensures MatchesSchema(rt, payload) && CanonicalSha256(rt, Obj(payload - {GRANT_HASH})).Ok? ==>
      CheckedClaims(rt, payload)
      == if ReadClaims(rt, payload).grantHash == CanonicalSha256(rt, Obj(payload - {GRANT_HASH})).value
         then Ok(ReadClaims(rt, payload)) else Err(HASH_MISMATCH)
  {
  }

  lemma SoundIsUnique(rt: Runtime, payload: map<Text, Json>)
    ensures forall claims :: CheckedClaims(rt, payload) == Ok(claims) <==> Sound(rt, payload, claims)
  {
    forall claims ensures CheckedClaims(rt, payload) == Ok(claims) <==> Sound(rt, payload, claims) {
      CheckedClaimsIsSound(rt, payload, claims);
    }
  }

  lemma ClaimStage(rt: Runtime, payload: map<Text, Json>)
    requires FloatsRoundTrip(rt) && Valid(Obj(payload))
    ensures CheckedClaims(rt, payload).Err? ==>
      && CheckedClaims(rt, payload) == Err(if MatchesSchema(rt, payload) then HASH_MISMATCH else CLAIMS_INVALID)
      && CheckedClaims(rt, payload).error in CLAIM_ERRORS
  {
    UnsignedIsHashed(rt, payload);
    CheckedByCase(rt, payload);
  }

  lemma TrustStage(verifier: Verifier, claims: GrantClaims, now: Double)
    ensures CheckTrust(verifier, claims, now).Ok? <==> Trusted(verifier, claims, now)
    ensures CheckTrust(verifier, claims, now).Err? ==> CheckTrust(verifier, claims, now).error in TRUST_ERRORS
  {
  }

  lemma {:induction false} HeaderErrors(headers: map<Text, Text>, bound: seq<(Text, Text)>)
    ensures CheckHeaders(headers, bound).Err? ==> CheckHeaders(headers, bound).error in {HEADER_MISSING, HEADER_MISMATCH}
  {
    if bound != [] {
      HeaderErrors(headers, bound[1..]);
    }
  }

  lemma BindingStage(rt: Runtime, claims: GrantClaims, seen: Presented)
    requires FloatsRoundTrip(rt) && Valid(seen.request)
    ensures CheckBinding(rt, claims, seen).Ok? <==> Bound(rt, claims, seen)
    ensures CheckBinding(rt, claims, seen).Err? ==> CheckBinding(rt, claims, seen).error in BINDING_ERRORS
  {
    CanonicalBytesDefined(rt, seen.request);
    CheckBindingIsBound(rt, claims, seen);
    HeaderErrors(seen.headers, BoundHeaders(claims));
  }

  /** A token without exactly one dot is no token. */
  lemma ShapeErrorIsExact(rt: Runtime, publicKey: Bytes, token: Text)
    ensures OpenToken(rt, publicKey, token) == Err(Format("invalid_capability_grant_token")) <==>
      forall p, s :: token != p + ([DOT] + s) || DOT in p || DOT in s
  {
    forall p, s ensures SplitToken(token) == Ok((p, s)) <==> token == p + ([DOT] + s) && DOT !in p && DOT !in s {
      SplitTokenExact(token, p, s);
    }
    if SplitToken(token).Ok? {
      var (p, s) := SplitToken(token).value;
      assert SplitToken(token) == Ok((p, s));
      AfterSplit(rt, publicKey, token);
    }
  }

  lemma AfterSplit(rt: Runtime, publicKey: Bytes, token: Text)
    requires SplitToken(token).Ok?
    ensures OpenToken(rt, publicKey, token) != Err(INVALID_TOKEN)
  {
    var (p, s) := SplitToken(token).value;
    DecodeErrors(p);
    DecodeErrors(s);
    if Base64Url.Decode(p).Ok? {
      GateCodes(rt, Base64Url.Decode(p).value);
    }
    ShapeCodeIsApart();
  }

  const GATE_ERRORS := {NOT_OBJECT, NOT_CANONICAL}

  lemma GateCodes(rt: Runtime, b: Bytes)
    ensures PayloadGate(rt, b).Err? ==>
      PayloadGate(rt, b).error in JSON_ERRORS || PayloadGate(rt, b).error in GATE_ERRORS
  {
    LoadErrors(rt, b);
  }

  lemma ShapeCodeIsApart()
    ensures INVALID_TOKEN !in JSON_ERRORS && INVALID_TOKEN !in GATE_ERRORS
    ensures INVALID_TOKEN !in {SIGNATURE_LENGTH, SIGNATURE_INVALID, NOT_DETACHED}
    ensures INVALID_TOKEN !in {Base64Url.INVALID_BASE64, Base64Url.NON_CANONICAL_BASE64}
  {
    assert |INVALID_TOKEN.code| == 30;
  }

  lemma SignatureCodesAreApart()
    ensures SIGNATURE_LENGTH !in JSON_ERRORS && SIGNATURE_LENGTH !in GATE_ERRORS && SIGNATURE_LENGTH != NOT_DETACHED
    ensures SIGNATURE_INVALID !in JSON_ERRORS && SIGNATURE_INVALID !in GATE_ERRORS && SIGNATURE_INVALID != NOT_DETACHED
  {
    assert |SIGNATURE_LENGTH.code| == 32;
  }

  lemma DetachedCodeIsApart()
    ensures NOT_DETACHED !in JSON_ERRORS && NOT_DETACHED !in GATE_ERRORS
    ensures NOT_OBJECT !in JSON_ERRORS && NOT_CANONICAL !in JSON_ERRORS && NOT_OBJECT != NOT_CANONICAL
  {
    assert |NOT_DETACHED.code| == 43 && |NOT_OBJECT.code| == 34 && |NOT_CANONICAL.code| == 37;
  }

  /** The signature is checked before a byte of the payload is parsed: its length, then itself. */
  lemma SignatureErrorsAreExact(rt: Runtime, publicKey: Bytes, token: Text, b: Bytes, signature: Bytes)
    requires SplitToken(token).Ok?
    requires Base64Url.Decode(SplitToken(token).value.0) == Ok(b)
    requires Base64Url.Decode(SplitToken(token).value.1) == Ok(signature)
    ensures OpenToken(rt, publicKey, token) == Err(Format("ed25519_signature_length_invalid")) <==> |signature| != 64
    ensures OpenToken(rt, publicKey, token) == Err(Denied("capability_grant_signature_invalid")) <==>
      |signature| == 64 && !rt.verifySignature(publicKey, signature, b)
  {
    GateCodes(rt, b);
    SignatureCodesAreApart();
  }

  /** Of a signed payload: not an object, not the canonical form, or a signature among the claims. */
  lemma PayloadErrorsAreExact(rt: Runtime, publicKey: Bytes, token: Text, b: Bytes, signature: Bytes, v: Json)
    requires FloatsRoundTrip(rt) && SplitToken(token).Ok?
    requires Base64Url.Decode(SplitToken(token).value.0) == Ok(b)
    requires Base64Url.Decode(SplitToken(token).value.1) == Ok(signature)
    requires |signature| == 64 && rt.verifySignature(publicKey, signature, b) && StrictLoads(rt, b) == Ok(v)
    ensures var r := OpenToken(rt, publicKey, token);
      && (r == Err(Format("capability_grant_claims_not_object")) <==> !v.Obj?)
      && (r == Err(Format("capability_grant_claims_not_canonical")) <==> v.Obj? && CanonicalBytes(rt, v) != Ok(b))
      && (r == Err(Format("capability_grant_signature_must_be_detached")) <==>
            v.Obj? && CanonicalBytes(rt, v) == Ok(b) && Lit("signature") in v.fields)
  {
    GateErrorsAreExact(rt, b, v);
    OpenedByGate(rt, publicKey, token, b, signature);
    DetachedCodeIsApart();
  }

  lemma GateErrorsAreExact(rt: Runtime, b: Bytes, v: Json)
    requires FloatsRoundTrip(rt) && StrictLoads(rt, b) == Ok(v)
    ensures PayloadGate(rt, b) ==
      if !v.Obj? then Err(NOT_OBJECT) else if CanonicalBytes(rt, v) != Ok(b) then Err(NOT_CANONICAL) else Ok(v.fields)
  {
    CanonicalBytesDefined(rt, v);
  }

  lemma OpenedByGate(rt: Runtime, publicKey: Bytes, token: Text, b: Bytes, signature: Bytes)
    requires SplitToken(token).Ok?
    requires Base64Url.Decode(SplitToken(token).value.0) == Ok(b)
    requires Base64Url.Decode(SplitToken(token).value.1) == Ok(signature)
    requires |signature| == 64 && rt.verifySignature(publicKey, signature, b)
    ensures OpenToken(rt, publicKey, token) ==
      var gate := PayloadGate(rt, b);
      if gate.Err? then gate else if SIGNATURE in gate.value then Err(NOT_DETACHED) else gate
  {
  }

  /** The trust checks answer with the code of the first thing that is wrong: issuer, key, audience,
      the order of the bounds, the clock itself, too early, too late. */
  lemma TrustErrorsAreExact(verifier: Verifier, claims: GrantClaims, now: Double)
    ensures var r := CheckTrust(verifier, claims, now);
      var issuer, key := claims.issuer == verifier.issuer, claims.keyId == verifier.keyId;
      var audience := claims.audience == verifier.audience;
      var from, to := ValueOf(claims.notBefore), ValueOf(claims.expiresAt);
      var ordered := ValueOf(claims.issuedAt) <= from < to;
      && (r == Err(Denied("capability_grant_issuer_mismatch")) <==> !issuer)
      && (r == Err(Denied("capability_grant_key_mismatch")) <==> issuer && !key)
      && (r == Err(Denied("capability_grant_audience_mismatch")) <==> issuer && key && !audience)
      && (r == Err(Format("capability_grant_time_bounds_invalid")) <==> issuer && key && audience && !ordered)
      && (r == Err(Format("capability_grant_now_invalid")) <==> issuer && key && audience && ordered && !now.Finite?)
      && (r == Err(Denied("capability_grant_not_yet_valid")) <==>
            issuer && key && audience && ordered && now.Finite? && ValueOf(now) < from)
      && (r == Err(Denied("capability_grant_expired")) <==>
            issuer && key && audience && ordered && now.Finite? && to <= ValueOf(now))
  {
    LateCodesDiffer();
  }

  /** So do the binding checks: request, transport, then the first header in table order that is
      missing or differs. */
  lemma BindingErrorsAreExact(rt: Runtime, claims: GrantClaims, seen: Presented)
    requires FloatsRoundTrip(rt) && Valid(seen.request)
    ensures var r := CheckBinding(rt, claims, seen);
      var request := IsHashOf(rt, claims.requestHash, seen.request);
      var transport := ReadTransport(seen.transport);
      && (r == Err(Denied("capability_grant_request_mismatch")) <==> !request)
      && (r == Err(Format("capability_grant_expected_transport_invalid")) <==> request && transport.None?)
      && (r == Err(Denied("capability_grant_transport_mismatch")) <==>
            request && transport.Some? && transport.value != claims.transport)
      && (request && transport == Some(claims.transport) ==> r == CheckHeaders(seen.headers, BoundHeaders(claims)))
  {
    CanonicalBytesDefined(rt, seen.request);
    LateCodesDiffer();
    HeaderErrors(seen.headers, BoundHeaders(claims));
  }

  /** A header check that fails names the first bad header: absent or empty, or with another value. */
  lemma {:induction false} HeaderErrorsAreExact(headers: map<Text, Text>, bound: seq<(Text, Text)>)
    ensures CheckHeaders(headers, bound) == Err(Denied("capability_grant_bound_header_missing")) <==>
      exists i :: IsFirstBad(headers, bound, i) && (bound[i].0 !in headers || headers[bound[i].0] == [])
    ensures CheckHeaders(headers, bound) == Err(Denied("capability_grant_bound_header_mismatch")) <==>
      exists i :: IsFirstBad(headers, bound, i) && bound[i].0 in headers && headers[bound[i].0] != []
  {
    MissingIsNoMismatch();
    if bound != [] {
      HeaderErrorsAreExact(headers, bound[1..]);
      if HeaderAgrees(headers, bound[0]) {
        forall i | IsFirstBad(headers, bound, i) ensures i > 0 && IsFirstBad(headers, bound[1..], i - 1) {
        }
        forall i | IsFirstBad(headers, bound[1..], i) ensures IsFirstBad(headers, bound, i + 1) {
        }
      } else {
        assert IsFirstBad(headers, bound, 0);
        assert forall i | IsFirstBad(headers, bound, i) :: i == 0;
      }
    }
  }

  lemma MissingIsNoMismatch()
    ensures HEADER_MISSING != HEADER_MISMATCH
  {
    assert |HEADER_MISSING.code| != |HEADER_MISMATCH.code|;
  }

  ghost predicate IsFirstBad(headers: map<Text, Text>, bound: seq<(Text, Text)>, i: int) {
    && 0 <= i < |bound| && !HeaderAgrees(headers, bound[i])
    && forall j | 0 <= j < i :: HeaderAgrees(headers, bound[j])
  }

  // ----- the program's own form -----

  lemma HeadersStep(headers: map<Text, Text>, bound: seq<(Text, Text)>, i: nat)
    requires i < |bound|
    ensures CheckHeaders(headers, bound[i..]) ==
      if bound[i].0 !in headers || headers[bound[i].0] == [] then Err(HEADER_MISSING)
      else if headers[bound[i].0] != bound[i].1 then Err(HEADER_MISMATCH)
      else CheckHeaders(headers, bound[i + 1..])
  {
    assert bound[i..][1..] == bound[i + 1..];
  }

  method VerifyBoundHeaders(claims: GrantClaims, headers: map<Text, Text>) returns (r: Result<()>)
    ensures r == CheckHeaders(headers, BoundHeaders(claims))
    ensures r.Ok? <==> RepeatsClaims(headers, claims)
  {
    HeadersAreRepeated(headers, claims);
    var bound := BoundHeaders(claims);
    for i := 0 to |bound|
      invariant CheckHeaders(headers, bound) == CheckHeaders(headers, bound[i..])
    {
      var (name, expected) := bound[i];
      HeadersStep(headers, bound, i);
      if name !in headers || headers[name] == [] {
        return Err(HEADER_MISSING);
      }
      if headers[name] != expected {
        return Err(HEADER_MISMATCH);
      }
    }
    return Ok(());
  }

  /** The unsigned claims are a copy of the payload from which the hash is popped. The answer is the
      claims iff they are sound; a payload without the schema and one with another hash are told
      apart. */
  method CheckGrantHash(rt: Runtime, payload: map<Text, Json>) returns (r: Result<GrantClaims>)
    ensures r == CheckedClaims(rt, payload)
    ensures forall claims :: r == Ok(claims) <==> Sound(rt, payload, claims)
    ensures FloatsRoundTrip(rt) && Valid(Obj(payload)) && r.Err? ==>
      r.error == Denied("capability_grant_hash_mismatch") || r.error == Format("capability_grant_claims_invalid")
    ensures FloatsRoundTrip(rt) && Valid(Obj(payload)) && r.Err? ==>
      (r.error == Denied("capability_grant_hash_mismatch") <==> IsContract(rt, payload))
  {
    SoundIsUnique(rt, payload);
    SchemaIsContract(rt, payload);
    if FloatsRoundTrip(rt) && Valid(Obj(payload)) {
      ClaimStage(rt, payload);
    }
    r := PopAndCompare(rt, payload);
  }

  method PopAndCompare(rt: Runtime, payload: map<Text, Json>) returns (r: Result<GrantClaims>)
    ensures r == CheckedClaims(rt, payload)
  {
    CheckedByCase(rt, payload);
    if !MatchesSchema(rt, payload) {
      return Err(CLAIMS_INVALID);
    }
    var claims := ReadClaims(rt, payload);
    var unsignedClaims := payload;
    unsignedClaims := unsignedClaims - {GRANT_HASH};
    var expected := CanonicalSha256(rt, Obj(unsignedClaims));
    if expected.Err? {
      return Err(expected.error);
    }
    if claims.grantHash != expected.value {
      return Err(HASH_MISMATCH);
    }
    return Ok(claims);
  }

  method CheckBoundRequest(rt: Runtime, claims: GrantClaims, seen: Presented) returns (r: Result<()>)
    ensures r == CheckBinding(rt, claims, seen)
    ensures r.Ok? <==> Bound(rt, claims, seen)
  {
    CheckBindingIsBound(rt, claims, seen);
    var expected := CanonicalSha256(rt, seen.request);
    if expected.Err? {
      return Err(expected.error);
    }
    if claims.requestHash != expected.value {
      return Err(REQUEST_MISMATCH);
    }
    var transport := ReadTransport(seen.transport);
    if transport.None? {
      return Err(TRANSPORT_INVALID);
    }
    if claims.transport != transport.value {
      return Err(TRANSPORT_MISMATCH);
    }
    r := VerifyBoundHeaders(claims, seen.headers);
  }

  /** Accepted: the token is genuine and its claims authorize exactly this. */
  ghost predicate IsAccepted(rt: Runtime, verifier: Verifier, token: Text, seen: Presented, terms: GrantClaims) {
    exists payload, signature ::
      && Genuine(rt, verifier.publicKey, token, payload, signature)
      && Authorizes(rt, verifier, payload, terms, seen)
  }

  /** What holds of every grant that is returned, field by field: its claims are a signed object that
      says the terms under the names of the contract, single use included, and the terms name the
      verifier's trust tuple, the clock, the request, the transport and the headers. */
  ghost predicate GrantSays(rt: Runtime, verifier: Verifier, seen: Presented, grant: VerifiedGrant) {
    && Thaw(grant.claims).Obj?
    && Lit("signature") !in Thaw(grant.claims).fields
    && Stands(rt, Thaw(grant.claims).fields, grant.terms)
    && MeetsContract(grant.terms) && IsHexHash(grant.terms.grantHash)
    && IsHashOf(rt, grant.terms.grantHash, Obj(Thaw(grant.claims).fields - {Lit("grant_hash")}))
    && grant.terms.issuer == verifier.issuer
    && grant.terms.keyId == verifier.keyId
    && grant.terms.audience == verifier.audience
    && seen.now.Finite?
    && ValueOf(grant.terms.issuedAt) <= ValueOf(grant.terms.notBefore) <= ValueOf(seen.now)
    && ValueOf(seen.now) < ValueOf(grant.terms.expiresAt)
    && IsHashOf(rt, grant.terms.requestHash, seen.request)
    && SaysTransport(seen.transport, grant.terms.transport)
    && RepeatsClaims(seen.headers, grant.terms)
  }

  lemma AcceptedSays(rt: Runtime, verifier: Verifier, token: Text, seen: Presented)
    requires FloatsRoundTrip(rt) && Verify(rt, verifier, token, seen).Ok?
    ensures GrantSays(rt, verifier, seen, Verify(rt, verifier, token, seen).value)
  {
    var payload, signature := AcceptedIsGenuine(rt, verifier, token, seen);
  }

  /** What an answer means: a grant iff some claims and signature make the token genuine and authorize
      the request, and then one that says these claims; a code about what the token says for a genuine
      token only. */
  ghost predicate Answers(
    rt: Runtime, verifier: Verifier, token: Text, seen: Presented, r: Result<VerifiedGrant>)
  {
    && (r.Ok? <==> exists terms :: IsAccepted(rt, verifier, token, seen, terms))
    && (r.Ok? ==> IsAccepted(rt, verifier, token, seen, r.value.terms) && GrantSays(rt, verifier, seen, r.value))
    && (r.Err? && IsLate(r.error) ==>
          exists payload, signature :: Genuine(rt, verifier.publicKey, token, payload, signature))
  }

  lemma AnswerMeans(rt: Runtime, verifier: Verifier, token: Text, seen: Presented)
    requires FloatsRoundTrip(rt)
    ensures Answers(rt, verifier, token, seen, Verify(rt, verifier, token, seen))
  {
    var r := Verify(rt, verifier, token, seen);
    if r.Ok? {
      var payload, signature := AcceptedIsGenuine(rt, verifier, token, seen);
      assert IsAccepted(rt, verifier, token, seen, r.value.terms);
      AcceptedSays(rt, verifier, token, seen);
    } else if IsLate(r.error) {
      var payload, signature := LateErrorsAreSigned(rt, verifier, token, seen);
    }
    if terms :| IsAccepted(rt, verifier, token, seen, terms) {
      VerifyIsExact(rt, verifier, token, seen);
    }
  }

  /** `verify`, check after check. */
  method VerifyToken(rt: Runtime, verifier: Verifier, token: Text, seen: Presented) returns (r: Result<VerifiedGrant>)
    ensures r == Verify(rt, verifier, token, seen)
    ensures FloatsRoundTrip(rt) ==> Answers(rt, verifier, token, seen, r)
  {
    if FloatsRoundTrip(rt) {
      AnswerMeans(rt, verifier, token, seen);
    }
    r := VerifySequence(rt, verifier, token, seen);
  }

  method VerifySequence(rt: Runtime, verifier: Verifier, token: Text, seen: Presented)
    returns (r: Result<VerifiedGrant>)
    ensures r == Verify(rt, verifier, token, seen)
  {
    var payload := OpenToken(rt, verifier.publicKey, token);
    if payload.Err? {
      return Err(payload.error);
    }
    var claims := CheckGrantHash(rt, payload.value);
    if claims.Err? {
      return Err(claims.error);
    }
    var trust := CheckTrust(verifier, claims.value, seen.now);
    if trust.Err? {
      return Err(trust.error);
    }
    var binding := CheckBoundRequest(rt, claims.value, seen);
    if binding.Err? {
      return Err(binding.error);
    }
    return Ok(VerifiedGrant(claims.value, Freeze(Obj(payload.value))));
  }
}
