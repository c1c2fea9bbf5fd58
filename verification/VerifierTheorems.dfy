/** What an accepted token proves, and which tokens are accepted. */
module VerifierTheorems {
  import opened Base
  import opened Json
  import opened JsonPrint
  import opened JsonParse
  import opened JsonRoundTrip
  import opened JsonTheorems
  import opened Hashing
  import opened Runtimes
  import opened Claims
  import opened Contracts
  import opened Verifiers
  import Base64Url
  import Utf8

  lemma GateAcceptsPrinted(rt: Runtime, b: Bytes, fields: map<Text, Json>)
    requires FloatsRoundTrip(rt) && Valid(Obj(fields)) && CanonicalBytes(rt, Obj(fields)) == Ok(b)
    ensures PayloadGate(rt, b) == Ok(fields)
  {
    RoundTrip(rt, Obj(fields));
  }

  lemma GateAcceptsOnlyPrinted(rt: Runtime, b: Bytes)
    requires PayloadGate(rt, b).Ok?
    ensures var fields := PayloadGate(rt, b).value;
      Valid(Obj(fields)) && CanonicalBytes(rt, Obj(fields)) == Ok(b)
  {
    var payload := StrictLoads(rt, b).value;
    assert Validate(payload).Ok?;
  }

  /** The gate lets through exactly the printer's output on valid objects. */
  lemma PayloadGateIsExact(rt: Runtime, b: Bytes, fields: map<Text, Json>)
    requires FloatsRoundTrip(rt)
    ensures PayloadGate(rt, b) == Ok(fields) <==> Valid(Obj(fields)) && CanonicalBytes(rt, Obj(fields)) == Ok(b)
  {
    if PayloadGate(rt, b).Ok? {
      GateAcceptsOnlyPrinted(rt, b);
    }
    if Valid(Obj(fields)) && CanonicalBytes(rt, Obj(fields)) == Ok(b) {
      GateAcceptsPrinted(rt, b, fields);
    }
  }

  function PayloadBytes(rt: Runtime, payload: map<Text, Json>): Bytes
    requires CanonicalBytes(rt, Obj(payload)).Ok?
  {
    CanonicalBytes(rt, Obj(payload)).value
  }

  lemma PrintedIsNotEmpty(rt: Runtime, v: Json)
    requires FloatsRoundTrip(rt) && Valid(v)
    ensures CanonicalBytes(rt, v).Ok? && CanonicalBytes(rt, v).value != []
  {
    CanonicalBytesDefined(rt, v);
    PrintStart(rt, v, []);
    var text := Print(rt, v);
    assert Utf8.Encode(text) == Utf8.EncodeOne(text[0]) + Utf8.Encode(text[1..]);
  }

  /** The token is the one compact form of these claims and this signature, and the signature is
      over exactly the bytes of these claims. */
  ghost predicate Genuine(rt: Runtime, publicKey: Bytes, token: Text, payload: map<Text, Json>, signature: Bytes) {
    && Valid(Obj(payload))
    && Lit("signature") !in payload
    && CanonicalBytes(rt, Obj(payload)).Ok?
    && token == TokenText(PayloadBytes(rt, payload), signature)
    && |signature| == 64
    && rt.verifySignature(publicKey, signature, PayloadBytes(rt, payload))
  }

  lemma TokenTextSplits(payload: Bytes, signature: Bytes)
    ensures SplitToken(TokenText(payload, signature)) == Ok((Base64Url.Encode(payload), Base64Url.Encode(signature)))
  {
    NoDotInBase64(payload);
    NoDotInBase64(signature);
    SplitTokenExact(TokenText(payload, signature), Base64Url.Encode(payload), Base64Url.Encode(signature));
  }

  lemma GenuineOpens(rt: Runtime, publicKey: Bytes, token: Text, payload: map<Text, Json>, signature: Bytes)
    requires FloatsRoundTrip(rt) && Genuine(rt, publicKey, token, payload, signature)
    ensures OpenToken(rt, publicKey, token) == Ok(payload)
  {
    var b := PayloadBytes(rt, payload);
    PrintedIsNotEmpty(rt, Obj(payload));
    TokenTextSplits(b, signature);
    Base64Url.DecodeEncode(b);
    Base64Url.DecodeEncode(signature);
    PayloadGateIsExact(rt, b, payload);
  }

  lemma OpenedIsGenuine(rt: Runtime, publicKey: Bytes, token: Text) returns (signature: Bytes)
    requires FloatsRoundTrip(rt) && OpenToken(rt, publicKey, token).Ok?
    ensures Genuine(rt, publicKey, token, OpenToken(rt, publicKey, token).value, signature)
    ensures SplitToken(token).Ok? && Base64Url.Decode(SplitToken(token).value.1) == Ok(signature)
  {
    var (p, s) := SplitToken(token).value;
    SplitTokenExact(token, p, s);
    Base64Url.DecodeAcceptsCanonical(p);
    Base64Url.DecodeAcceptsCanonical(s);
    signature := Base64Url.Decode(s).value;
    PayloadGateIsExact(rt, Base64Url.Decode(p).value, OpenToken(rt, publicKey, token).value);
  }

  /** The canonical hash of a valid value. */
  ghost predicate IsHashOf(rt: Runtime, hash: Text, v: Json) {
    CanonicalBytes(rt, v).Ok? && hash == Sha256Hex(rt, CanonicalBytes(rt, v).value)
  }

  /** The payload says these claims, they meet the contract, and the hash is the hash of the others. */
  ghost predicate Sound(rt: Runtime, payload: map<Text, Json>, claims: GrantClaims) {
    && MeetsContract(claims) && IsHexHash(claims.grantHash)
    && Stands(rt, payload, claims)
    && IsHashOf(rt, claims.grantHash, Obj(payload - {Lit("grant_hash")}))
  }

  /** The claims name this issuer, key and audience, and `now` is inside their time bounds. */
  ghost predicate Trusted(verifier: Verifier, claims: GrantClaims, now: Double) {
    && claims.issuer == verifier.issuer && claims.keyId == verifier.keyId && claims.audience == verifier.audience
    && now.Finite?
    && ValueOf(claims.issuedAt) <= ValueOf(claims.notBefore) <= ValueOf(now) < ValueOf(claims.expiresAt)
  }

  /** The claims name this request, this transport and these headers. */
  ghost predicate Bound(rt: Runtime, claims: GrantClaims, seen: Presented) {
    && IsHashOf(rt, claims.requestHash, seen.request)
    && SaysTransport(seen.transport, claims.transport) && MeetsTransport(claims.transport)
    && RepeatsClaims(seen.headers, claims)
  }

  ghost predicate Authorizes(
    rt: Runtime, verifier: Verifier, payload: map<Text, Json>, claims: GrantClaims, seen: Presented)
  {
    Sound(rt, payload, claims) && Trusted(verifier, claims, seen.now) && Bound(rt, claims, seen)
  }

  lemma CheckedClaimsIsSound(rt: Runtime, payload: map<Text, Json>, claims: GrantClaims)
    ensures CheckedClaims(rt, payload) == Ok(claims) <==> Sound(rt, payload, claims)
  {
    SchemaIsExact(rt, payload, claims);
    CheckedIsHashed(rt, payload, claims);
  }

  lemma CheckedIsHashed(rt: Runtime, payload: map<Text, Json>, claims: GrantClaims)
    ensures CheckedClaims(rt, payload) == Ok(claims) <==>
      && MatchesSchema(rt, payload) && ReadClaims(rt, payload) == claims
      && IsHashOf(rt, claims.grantHash, Obj(payload - {GRANT_HASH}))
  {
  }

  lemma SoundIsRead(rt: Runtime, payload: map<Text, Json>, claims: GrantClaims)
    ensures Sound(rt, payload, claims) <==>
      && MatchesSchema(rt, payload) && ReadClaims(rt, payload) == claims
      && IsHashOf(rt, claims.grantHash, Obj(payload - {GRANT_HASH}))
  {
    SchemaIsExact(rt, payload, claims);
  }

  lemma HeadersAreRepeated(headers: map<Text, Text>, claims: GrantClaims)
    ensures RepeatsClaims(headers, claims) <==> forall i | 0 <= i < 6 :: HeaderAgrees(headers, BoundHeaders(claims)[i])
  {
    if forall i | 0 <= i < 6 :: HeaderAgrees(headers, BoundHeaders(claims)[i]) {
      assert HeaderAgrees(headers, BoundHeaders(claims)[0]) && HeaderAgrees(headers, BoundHeaders(claims)[1]);
      assert HeaderAgrees(headers, BoundHeaders(claims)[2]) && HeaderAgrees(headers, BoundHeaders(claims)[3]);
      assert HeaderAgrees(headers, BoundHeaders(claims)[4]) && HeaderAgrees(headers, BoundHeaders(claims)[5]);
    }
  }

  lemma BoundIsRead(rt: Runtime, claims: GrantClaims, seen: Presented)
    ensures Bound(rt, claims, seen) <==>
      && IsHashOf(rt, claims.requestHash, seen.request)
      && ReadTransport(seen.transport) == Some(claims.transport)
      && forall i | 0 <= i < 6 :: HeaderAgrees(seen.headers, BoundHeaders(claims)[i])
  {
    TransportIsExact(seen.transport, claims.transport);
    HeadersAreRepeated(seen.headers, claims);
  }

  lemma CheckTrustIsTrusted(verifier: Verifier, claims: GrantClaims, now: Double)
    ensures CheckTrust(verifier, claims, now).Ok? <==> Trusted(verifier, claims, now)
  {
  }

  lemma CheckBindingIsBound(rt: Runtime, claims: GrantClaims, seen: Presented)
    ensures CheckBinding(rt, claims, seen).Ok? <==> Bound(rt, claims, seen)
  {
    BoundIsRead(rt, claims, seen);
  }

  /** The verifier's answer, from its three groups of checks. */
  lemma VerifySteps(rt: Runtime, verifier: Verifier, token: Text, seen: Presented,
                    payload: map<Text, Json>, claims: GrantClaims)
    requires OpenToken(rt, verifier.publicKey, token) == Ok(payload)
    ensures Authorizes(rt, verifier, payload, claims, seen)
       <==> Verify(rt, verifier, token, seen) == Ok(VerifiedGrant(claims, Freeze(Obj(payload))))
  {
    VerifyInStages(rt, verifier, token, seen, payload, claims);
    CheckedClaimsIsSound(rt, payload, claims);
    CheckTrustIsTrusted(verifier, claims, seen.now);
    CheckBindingIsBound(rt, claims, seen);
  }

  lemma VerifyInStages(rt: Runtime, verifier: Verifier, token: Text, seen: Presented,
                       payload: map<Text, Json>, claims: GrantClaims)
    requires OpenToken(rt, verifier.publicKey, token) == Ok(payload)
    ensures Verify(rt, verifier, token, seen) == Ok(VerifiedGrant(claims, Freeze(Obj(payload)))) <==>
      && CheckedClaims(rt, payload) == Ok(claims)
      && CheckTrust(verifier, claims, seen.now).Ok?
      && CheckBinding(rt, claims, seen).Ok?
  {
  }

  /** Soundness: an accepted token is genuine and authorizes exactly this request, and the grant
      holds its signed claims unchanged. */
  lemma AcceptedIsGenuine(rt: Runtime, verifier: Verifier, token: Text, seen: Presented)
    returns (payload: map<Text, Json>, signature: Bytes)
    requires FloatsRoundTrip(rt) && Verify(rt, verifier, token, seen).Ok?
    ensures Genuine(rt, verifier.publicKey, token, payload, signature)
    ensures Authorizes(rt, verifier, payload, Verify(rt, verifier, token, seen).value.terms, seen)
    ensures Verify(rt, verifier, token, seen).value.claims == Freeze(Obj(payload))
    ensures Thaw(Verify(rt, verifier, token, seen).value.claims) == Obj(payload)
    ensures OpenToken(rt, verifier.publicKey, token) == Ok(payload)
    ensures SplitToken(token).Ok? && Base64Url.Decode(SplitToken(token).value.1) == Ok(signature)
  {
    payload := OpenToken(rt, verifier.publicKey, token).value;
    signature := OpenedIsGenuine(rt, verifier.publicKey, token);
    VerifySteps(rt, verifier, token, seen, payload, CheckedClaims(rt, payload).value);
    ThawFreeze(Obj(payload));
  }

  /** Completeness: a genuine token that authorizes the request is accepted. */
  lemma GenuineIsAccepted(rt: Runtime, verifier: Verifier, token: Text, seen: Presented,
                          payload: map<Text, Json>, signature: Bytes, claims: GrantClaims)
    requires FloatsRoundTrip(rt)
    requires Genuine(rt, verifier.publicKey, token, payload, signature)
    requires Authorizes(rt, verifier, payload, claims, seen)
    ensures Verify(rt, verifier, token, seen) == Ok(VerifiedGrant(claims, Freeze(Obj(payload))))
  {
    GenuineOpens(rt, verifier.publicKey, token, payload, signature);
    VerifySteps(rt, verifier, token, seen, payload, claims);
  }

  /** The verifier accepts a token iff some claims and signature make it genuine and authorize the
      request. */
  lemma VerifyIsExact(rt: Runtime, verifier: Verifier, token: Text, seen: Presented)
    requires FloatsRoundTrip(rt)
    ensures Verify(rt, verifier, token, seen).Ok? <==>
      exists payload, signature, claims ::
        && Genuine(rt, verifier.publicKey, token, payload, signature)
        && Authorizes(rt, verifier, payload, claims, seen)
  {
    if Verify(rt, verifier, token, seen).Ok? {
      var payload, signature := AcceptedIsGenuine(rt, verifier, token, seen);
    }
    if payload, signature, claims :|
      && Genuine(rt, verifier.publicKey, token, payload, signature)
      && Authorizes(rt, verifier, payload, claims, seen)
    {
      GenuineIsAccepted(rt, verifier, token, seen, payload, signature, claims);
    }
  }

  /** Unique wire form: accepted tokens with the same claims and the same signature bytes are the
      same string, whatever verifier and request they were accepted for. */
  lemma WireFormIsUnique(
    rt: Runtime, v: Verifier, token: Text, seen: Presented, w: Verifier, other: Text, seen': Presented)
    requires FloatsRoundTrip(rt)
    requires Verify(rt, v, token, seen).Ok? && Verify(rt, w, other, seen').Ok?
    requires Verify(rt, v, token, seen).value.claims == Verify(rt, w, other, seen').value.claims
    requires SplitToken(token).Ok? && SplitToken(other).Ok?
    requires Base64Url.Decode(SplitToken(token).value.1) == Base64Url.Decode(SplitToken(other).value.1)
    ensures token == other
  {
    var p, s := AcceptedIsGenuine(rt, v, token, seen);
    var q, t := AcceptedIsGenuine(rt, w, other, seen');
  }

  /** `grant_hash` pins the whole grant: accepted grants with one hash have identical claims, or
      their unsigned canonical bytes are an explicit collision. */
  lemma GrantHashPinsTheGrant(
    rt: Runtime, v: Verifier, token: Text, seen: Presented, w: Verifier, other: Text, seen': Presented)
    requires FloatsRoundTrip(rt)
    requires Verify(rt, v, token, seen).Ok? && Verify(rt, w, other, seen').Ok?
    requires Verify(rt, v, token, seen).value.terms.grantHash == Verify(rt, w, other, seen').value.terms.grantHash
    ensures OpenToken(rt, v.publicKey, token).Ok? && OpenToken(rt, w.publicKey, other).Ok?
    ensures
      || Verify(rt, v, token, seen).value.claims == Verify(rt, w, other, seen').value.claims
      || UnsignedCollide(rt, OpenToken(rt, v.publicKey, token).value, OpenToken(rt, w.publicKey, other).value)
  {
    var p, s := AcceptedIsGenuine(rt, v, token, seen);
    var q, t := AcceptedIsGenuine(rt, w, other, seen');
    SoundPin(rt, p, Verify(rt, v, token, seen).value.terms, q, Verify(rt, w, other, seen').value.terms);
  }

  /** The claims without `grant_hash` print to two inputs of one digest. */
  ghost predicate UnsignedCollide(rt: Runtime, p: map<Text, Json>, q: map<Text, Json>) {
    var a, b := CanonicalBytes(rt, Obj(p - {GRANT_HASH})), CanonicalBytes(rt, Obj(q - {GRANT_HASH}));
    a.Ok? && b.Ok? && Collision(rt, a.value, b.value)
  }

  lemma SoundPin(rt: Runtime, p: map<Text, Json>, c: GrantClaims, q: map<Text, Json>, d: GrantClaims)
    requires FloatsRoundTrip(rt) && Sound(rt, p, c) && Sound(rt, q, d) && c.grantHash == d.grantHash
    ensures p == q || UnsignedCollide(rt, p, q)
  {
    var u, w := p - {GRANT_HASH}, q - {GRANT_HASH};
    assert p[GRANT_HASH] == Str(c.grantHash) == q[GRANT_HASH];
    SameHash(rt, u, w, c.grantHash);
    if u == w {
      AddHashBack(p, q, c.grantHash);
    }
  }

  lemma SameHash(rt: Runtime, u: map<Text, Json>, w: map<Text, Json>, hash: Text)
    requires FloatsRoundTrip(rt) && IsHashOf(rt, hash, Obj(u)) && IsHashOf(rt, hash, Obj(w))
    ensures u == w || Collision(rt, CanonicalBytes(rt, Obj(u)).value, CanonicalBytes(rt, Obj(w)).value)
  {
    CanonicalBytesDefined(rt, Obj(u));
    CanonicalBytesDefined(rt, Obj(w));
    EqualHashes(rt, CanonicalBytes(rt, Obj(u)).value, CanonicalBytes(rt, Obj(w)).value);
    CanonicalBytesDecideEquality(rt, Obj(u), Obj(w));
  }

  lemma AddHashBack(p: map<Text, Json>, q: map<Text, Json>, hash: Text)
    requires GRANT_HASH in p && GRANT_HASH in q && p[GRANT_HASH] == Str(hash) == q[GRANT_HASH]
    requires p - {GRANT_HASH} == q - {GRANT_HASH}
    ensures p == q
  {
    assert p == (p - {GRANT_HASH})[GRANT_HASH := Str(hash)];
    assert q == (q - {GRANT_HASH})[GRANT_HASH := Str(hash)];
  }

  // ----- the issuer's side -----

  /** The one fact assumed of signatures: an honest one verifies. */
  ghost predicate SignsFor(rt: Runtime, sign: Bytes -> Bytes, publicKey: Bytes) {
    forall m :: |sign(m)| == 64 && rt.verifySignature(publicKey, sign(m), m)
  }

  /** The claims with their hash added. */
  function Hashed(rt: Runtime, claims: map<Text, Json>): Result<map<Text, Json>> {
    var hash :- CanonicalSha256(rt, Obj(claims));
    Ok(claims[GRANT_HASH := Str(hash)])
  }

  /** Hash the claims, add the hash, print, and sign the printed bytes. */
  function Issue(rt: Runtime, sign: Bytes -> Bytes, claims: map<Text, Json>): Result<Text> {
    var payload :- Hashed(rt, claims);
    var b :- CanonicalBytes(rt, Obj(payload));
    Ok(TokenText(b, sign(b)))
  }

  lemma IssuedIsGenuine(rt: Runtime, sign: Bytes -> Bytes, publicKey: Bytes, claims: map<Text, Json>)
    requires FloatsRoundTrip(rt) && SignsFor(rt, sign, publicKey)
    requires Valid(Obj(claims)) && SIGNATURE !in claims
    ensures Hashed(rt, claims).Ok? && Issue(rt, sign, claims).Ok?
    ensures exists signature ::
      Genuine(rt, publicKey, Issue(rt, sign, claims).value, Hashed(rt, claims).value, signature)
  {
    CanonicalBytesDefined(rt, Obj(claims));
    var payload := Hashed(rt, claims).value;
    HashedIsValid(claims, CanonicalSha256(rt, Obj(claims)).value);
    CanonicalBytesDefined(rt, Obj(payload));
    var b := PayloadBytes(rt, payload);
    assert SIGNATURE !in payload by {
      assert |SIGNATURE| == 9 && |GRANT_HASH| == 10;
    }
    assert Genuine(rt, publicKey, TokenText(b, sign(b)), payload, sign(b));
  }

  lemma HashedIsValid(claims: map<Text, Json>, hash: Text)
    requires Valid(Obj(claims)) && IsHash(hash)
    ensures Valid(Obj(claims[GRANT_HASH := Str(hash)]))
  {
    assert Valid(Str(hash));
    assert Utf8.Encodable(GRANT_HASH) by {
      assert forall i | 0 <= i < |"grant_hash"| :: GRANT_HASH[i] == "grant_hash"[i] as int < 0xD800;
    }
  }

  /** The claims, once hashed, fit the schema, the trusted tuple, the request and the clock. */
  ghost predicate Intended(rt: Runtime, verifier: Verifier, claims: map<Text, Json>, seen: Presented) {
    && Hashed(rt, claims).Ok?
    && MatchesSchema(rt, Hashed(rt, claims).value)
    && Trusted(verifier, ReadClaims(rt, Hashed(rt, claims).value), seen.now)
    && Bound(rt, ReadClaims(rt, Hashed(rt, claims).value), seen)
  }

  lemma IntendedAuthorizes(rt: Runtime, verifier: Verifier, claims: map<Text, Json>, seen: Presented)
    requires GRANT_HASH !in claims && Intended(rt, verifier, claims, seen)
    ensures var payload := Hashed(rt, claims).value;
      Authorizes(rt, verifier, payload, ReadClaims(rt, payload), seen)
  {
    var payload := Hashed(rt, claims).value;
    assert payload - {GRANT_HASH} == claims;
    SoundIsRead(rt, payload, ReadClaims(rt, payload));
  }

  /** End to end: a token issued from claims meant for this receiver and request is accepted, and
      the returned claims thaw back to the issued ones. */
  lemma IssuedTokenIsAccepted(
    rt: Runtime, sign: Bytes -> Bytes, verifier: Verifier, claims: map<Text, Json>, seen: Presented)
    requires FloatsRoundTrip(rt) && SignsFor(rt, sign, verifier.publicKey)
    requires Valid(Obj(claims)) && SIGNATURE !in claims && GRANT_HASH !in claims
    requires Intended(rt, verifier, claims, seen)
    ensures Issue(rt, sign, claims).Ok?
    ensures var r := Verify(rt, verifier, Issue(rt, sign, claims).value, seen);
      && r == Ok(VerifiedGrant(ReadClaims(rt, Hashed(rt, claims).value), Freeze(Obj(Hashed(rt, claims).value))))
      && Thaw(r.value.claims) == Obj(Hashed(rt, claims).value)
  {
    var payload := Hashed(rt, claims).value;
    IssuedIsGenuine(rt, sign, verifier.publicKey, claims);
    var token := Issue(rt, sign, claims).value;
    var signature :| Genuine(rt, verifier.publicKey, token, payload, signature);
    IntendedAuthorizes(rt, verifier, claims, seen);
    GenuineIsAccepted(rt, verifier, token, seen, payload, signature, ReadClaims(rt, payload));
    ThawFreeze(Obj(payload));
  }
}
