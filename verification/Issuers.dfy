/** The issuer's side of the contract: claims written out field by field, and tokens for them. */
module Issuers {
  import opened Base
  import opened Json
  import opened JsonParse
  import opened JsonRoundTrip
  import opened JsonTheorems
  import opened Hashing
  import opened Runtimes
  import opened Claims
  import opened Verifiers
  import opened VerifierTheorems

  /** The claims an issuer writes, before their hash is added. */
  function TermFields(terms: GrantClaims): seq<(Text, Json)> {
    [(SCHEMA_VERSION, Str(Lit("capability-grant-v1"))),
     (GRANT_ID, Str(terms.grantId)),
     (TASK_ID, Str(terms.taskId)),
     (TRACE_ID, Str(terms.traceId)),
     (ACTION_ID, Str(terms.actionId)),
     (ATTEMPT_ID, Str(terms.attemptId)),
     (IDEMPOTENCY_KEY, Str(terms.idempotencyKey)),
     (AUDIENCE, Str(terms.audience)),
     (REQUEST_HASH, Str(terms.requestHash)),
     (TRANSPORT, DumpTransport(terms.transport)),
     (ISSUED_AT, Float(terms.issuedAt)),
     (NOT_BEFORE, Float(terms.notBefore)),
     (EXPIRES_AT, Float(terms.expiresAt)),
     (MAX_USES, Int(1)),
     (ISSUER, Str(terms.issuer)),
     (KEY_ID, Str(terms.keyId)),
     (SIGNATURE_ALGORITHM, Str(Lit("Ed25519")))]
  }

  /** Opaque claims of the issuer's own, overridden by the claims of the contract. */
  function ClaimsOf(terms: GrantClaims, opaqueClaims: map<Text, Json>): map<Text, Json> {
    opaqueClaims + DictOf(TermFields(terms))
  }

  predicate IsBounded(t: Text, max: nat) {
    1 <= |t| <= max
  }

  /** The field constraints of the contract, on the terms themselves. */
  predicate WellFormedTerms(terms: GrantClaims) {
    && IsBounded(terms.grantId, 200) && IsBounded(terms.taskId, 160) && IsBounded(terms.traceId, 160)
    && IsBounded(terms.actionId, 160) && IsBounded(terms.attemptId, 500) && IsBounded(terms.idempotencyKey, 1000)
    && IsBounded(terms.audience, 200) && IsBounded(terms.issuer, 300) && IsBounded(terms.keyId, 200)
    && IsHash(terms.requestHash)
    && ValidTransport(terms.transport)
    && ValueOf(terms.issuedAt) >= 0.0 && ValueOf(terms.notBefore) >= 0.0 && ValueOf(terms.expiresAt) > 0.0
  }

  /** Claim names differ in their length or first character. */
  function Rank(k: Text): int {
    if k == [] then 0 else |k| * 0x100 + k[0]
  }

  function Ranks(): seq<int> {
    [14 * 256 + 115, 8 * 256 + 103, 7 * 256 + 116, 8 * 256 + 116, 9 * 256 + 97, 10 * 256 + 97,
     15 * 256 + 105, 8 * 256 + 97, 12 * 256 + 114, 9 * 256 + 116, 9 * 256 + 105, 10 * 256 + 110,
     10 * 256 + 101, 8 * 256 + 109, 6 * 256 + 105, 6 * 256 + 107, 19 * 256 + 115]
  }

  lemma RanksOfNames(terms: GrantClaims)
    ensures forall i | 0 <= i < 17 :: Rank(TermFields(terms)[i].0) == Ranks()[i]
    ensures Rank(GRANT_HASH) == 10 * 256 + 103 && Rank(SIGNATURE) == 9 * 256 + 115
  {
  }

  lemma RanksDiffer()
    ensures forall i, j | 0 <= i < j < 17 :: Ranks()[i] != Ranks()[j]
    ensures forall i | 0 <= i < 17 :: Ranks()[i] != 10 * 256 + 103 && Ranks()[i] != 9 * 256 + 115
  {
  }

  lemma DistinctByRank(fields: seq<(Text, Json)>, ranks: seq<int>)
    requires |fields| == |ranks| && forall i | 0 <= i < |fields| :: Rank(fields[i].0) == ranks[i]
    requires forall i, j | 0 <= i < j < |ranks| :: ranks[i] != ranks[j]
    ensures DistinctKeys(fields)
  {
    forall i, j | 0 <= i < j < |fields| ensures fields[i].0 != fields[j].0 {
      assert ranks[i] != ranks[j];
    }
  }

  lemma NamesDiffer(terms: GrantClaims)
    ensures DistinctKeys(TermFields(terms))
    ensures forall i | 0 <= i < 17 :: TermFields(terms)[i].0 != GRANT_HASH && TermFields(terms)[i].0 != SIGNATURE
  {
    RanksOfNames(terms);
    RanksDiffer();
    DistinctByRank(TermFields(terms), Ranks());
  }

  lemma ClaimsHold(terms: GrantClaims, opaqueClaims: map<Text, Json>)
    requires GRANT_HASH !in opaqueClaims && SIGNATURE !in opaqueClaims
    ensures forall i | 0 <= i < 17 ::
      HasLiteral(ClaimsOf(terms, opaqueClaims), TermFields(terms)[i].0, TermFields(terms)[i].1)
    ensures GRANT_HASH !in ClaimsOf(terms, opaqueClaims) && SIGNATURE !in ClaimsOf(terms, opaqueClaims)
  {
    var fields := TermFields(terms);
    NamesDiffer(terms);
    forall i | 0 <= i < 17 ensures HasLiteral(ClaimsOf(terms, opaqueClaims), fields[i].0, fields[i].1) {
      DictKeeps(fields, i);
    }
    forall k | k in DictOf(fields) ensures k != GRANT_HASH && k != SIGNATURE {
      var i := DictSource(fields, k);
    }
  }

  lemma HashedHold(terms: GrantClaims, opaqueClaims: map<Text, Json>, hash: Text)
    requires GRANT_HASH !in opaqueClaims && SIGNATURE !in opaqueClaims
    ensures var payload := ClaimsOf(terms, opaqueClaims)[GRANT_HASH := Str(hash)];
      Written(payload, terms.(grantHash := hash))
  {
    ClaimsHold(terms, opaqueClaims);
    NamesDiffer(terms);
    var payload := ClaimsOf(terms, opaqueClaims)[GRANT_HASH := Str(hash)];
    AllFields(payload, terms.(grantHash := hash));
  }

  /** Every claim of the contract stands in the payload under its name. */
  ghost predicate Written(payload: map<Text, Json>, terms: GrantClaims) {
    && HasLiteral(payload, SCHEMA_VERSION, Str(Lit("capability-grant-v1")))
    && HasLiteral(payload, GRANT_ID, Str(terms.grantId))
    && HasLiteral(payload, TASK_ID, Str(terms.taskId))
    && HasLiteral(payload, TRACE_ID, Str(terms.traceId))
    && HasLiteral(payload, ACTION_ID, Str(terms.actionId))
    && HasLiteral(payload, ATTEMPT_ID, Str(terms.attemptId))
    && HasLiteral(payload, IDEMPOTENCY_KEY, Str(terms.idempotencyKey))
    && HasLiteral(payload, AUDIENCE, Str(terms.audience))
    && HasLiteral(payload, REQUEST_HASH, Str(terms.requestHash))
    && HasLiteral(payload, TRANSPORT, DumpTransport(terms.transport))
    && HasLiteral(payload, ISSUED_AT, Float(terms.issuedAt))
    && HasLiteral(payload, NOT_BEFORE, Float(terms.notBefore))
    && HasLiteral(payload, EXPIRES_AT, Float(terms.expiresAt))
    && HasLiteral(payload, MAX_USES, Int(1))
    && HasLiteral(payload, ISSUER, Str(terms.issuer))
    && HasLiteral(payload, KEY_ID, Str(terms.keyId))
    && HasLiteral(payload, SIGNATURE_ALGORITHM, Str(Lit("Ed25519")))
    && HasLiteral(payload, GRANT_HASH, Str(terms.grantHash))
  }

  lemma AllFields(payload: map<Text, Json>, terms: GrantClaims)
    requires forall i | 0 <= i < 17 :: HasLiteral(payload, TermFields(terms)[i].0, TermFields(terms)[i].1)
    requires HasLiteral(payload, GRANT_HASH, Str(terms.grantHash))
    ensures Written(payload, terms)
  {
    var f := TermFields(terms);
    assert HasLiteral(payload, f[0].0, f[0].1) && HasLiteral(payload, f[1].0, f[1].1);
    assert HasLiteral(payload, f[2].0, f[2].1) && HasLiteral(payload, f[3].0, f[3].1);
    assert HasLiteral(payload, f[4].0, f[4].1) && HasLiteral(payload, f[5].0, f[5].1);
    assert HasLiteral(payload, f[6].0, f[6].1) && HasLiteral(payload, f[7].0, f[7].1);
    assert HasLiteral(payload, f[8].0, f[8].1) && HasLiteral(payload, f[9].0, f[9].1);
    assert HasLiteral(payload, f[10].0, f[10].1) && HasLiteral(payload, f[11].0, f[11].1);
    assert HasLiteral(payload, f[12].0, f[12].1) && HasLiteral(payload, f[13].0, f[13].1);
    assert HasLiteral(payload, f[14].0, f[14].1) && HasLiteral(payload, f[15].0, f[15].1);
    assert HasLiteral(payload, f[16].0, f[16].1);
  }

  /** The schema accepts claims written from well-formed terms and reads those terms back. */
  lemma WrittenIsRead(rt: Runtime, payload: map<Text, Json>, terms: GrantClaims)
    requires WellFormedTerms(terms) && IsHash(terms.grantHash) && Written(payload, terms)
    ensures MatchesSchema(rt, payload) && ReadClaims(rt, payload) == terms
  {
    ReadDumpedTransport(terms.transport);
  }

  /** The token issued for terms: their claims, with the hash of those claims. */
  lemma HashedTerms(rt: Runtime, terms: GrantClaims, opaqueClaims: map<Text, Json>)
    requires GRANT_HASH !in opaqueClaims && SIGNATURE !in opaqueClaims && WellFormedTerms(terms)
    requires FloatsRoundTrip(rt) && Valid(Obj(ClaimsOf(terms, opaqueClaims)))
    ensures var claims := ClaimsOf(terms, opaqueClaims);
      && CanonicalSha256(rt, Obj(claims)).Ok?
      && var hash := CanonicalSha256(rt, Obj(claims)).value;
      && IsHashOf(rt, hash, Obj(claims))
      && Hashed(rt, claims) == Ok(claims[GRANT_HASH := Str(hash)])
      && MatchesSchema(rt, claims[GRANT_HASH := Str(hash)])
      && ReadClaims(rt, claims[GRANT_HASH := Str(hash)]) == terms.(grantHash := hash)
  {
    var claims := ClaimsOf(terms, opaqueClaims);
    CanonicalBytesDefined(rt, Obj(claims));
    var hash := CanonicalSha256(rt, Obj(claims)).value;
    HashedHold(terms, opaqueClaims, hash);
    WrittenIsRead(rt, claims[GRANT_HASH := Str(hash)], terms.(grantHash := hash));
  }

  lemma TermsAreIntended(
    rt: Runtime, verifier: Verifier, terms: GrantClaims, opaqueClaims: map<Text, Json>, seen: Presented, hash: Text)
    requires Hashed(rt, ClaimsOf(terms, opaqueClaims)) == Ok(ClaimsOf(terms, opaqueClaims)[GRANT_HASH := Str(hash)])
    requires MatchesSchema(rt, ClaimsOf(terms, opaqueClaims)[GRANT_HASH := Str(hash)])
    requires ReadClaims(rt, ClaimsOf(terms, opaqueClaims)[GRANT_HASH := Str(hash)]) == terms.(grantHash := hash)
    requires Trusted(verifier, terms, seen.now) && Bound(rt, terms, seen)
    ensures Intended(rt, verifier, ClaimsOf(terms, opaqueClaims), seen)
  {
    BoundApart(rt, terms, hash, seen);
  }

  /** End to end from the terms: whatever well-formed terms name this receiver, request and clock,
      with whatever opaque claims beside them, their token is accepted and reads back as them. */
  lemma TokenForTermsIsAccepted(
    rt: Runtime, sign: Bytes -> Bytes, verifier: Verifier, terms: GrantClaims,
    opaqueClaims: map<Text, Json>, seen: Presented)
    returns (hash: Text)
    requires FloatsRoundTrip(rt) && SignsFor(rt, sign, verifier.publicKey)
    requires GRANT_HASH !in opaqueClaims && SIGNATURE !in opaqueClaims
    requires Valid(Obj(ClaimsOf(terms, opaqueClaims))) && WellFormedTerms(terms)
    requires Trusted(verifier, terms, seen.now) && Bound(rt, terms, seen)
    ensures IsHashOf(rt, hash, Obj(ClaimsOf(terms, opaqueClaims)))
    ensures Issue(rt, sign, ClaimsOf(terms, opaqueClaims)).Ok?
    ensures var payload := ClaimsOf(terms, opaqueClaims)[GRANT_HASH := Str(hash)];
      && Verify(rt, verifier, Issue(rt, sign, ClaimsOf(terms, opaqueClaims)).value, seen)
         == Ok(VerifiedGrant(terms.(grantHash := hash), Freeze(Obj(payload))))
      && Thaw(Freeze(Obj(payload))) == Obj(payload)
  {
    var claims := ClaimsOf(terms, opaqueClaims);
    HashedTerms(rt, terms, opaqueClaims);
    hash := CanonicalSha256(rt, Obj(claims)).value;
    TermsAreIntended(rt, verifier, terms, opaqueClaims, seen, hash);
    ClaimsHold(terms, opaqueClaims);
    IssuedTokenIsAccepted(rt, sign, verifier, claims, seen);
  }

  /** Trust and binding do not look at the grant hash. */
  lemma BoundApart(rt: Runtime, terms: GrantClaims, hash: Text, seen: Presented)
    requires Bound(rt, terms, seen)
    ensures Bound(rt, terms.(grantHash := hash), seen)
  {
    assert BoundHeaders(terms.(grantHash := hash)) == BoundHeaders(terms);
  }
}
