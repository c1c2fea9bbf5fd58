/** The claims contract spelled out field by field, apart from the schema check: which claims it
    accepts and what it reads from them. */
module Contracts {
  import opened Base
  import opened Json
  import opened Hashing
  import opened Runtimes
  import opened Requests
  import opened Claims

  const METHOD_SYMBOLS := Lit("!#$%&'*+.^_`|~-")

  predicate HasLength(t: Text, max: nat) {
    1 <= |t| <= max
  }

  predicate IsHexHash(t: Text) {
    |t| == 64 && forall i | 0 <= i < 64 :: t[i] in LOWER_HEX
  }

  /** Its own strip, and no control characters. */
  predicate IsPlainName(t: Text) {
    Strip(t) == t && forall i | 0 <= i < |t| :: t[i] >= 32
  }

  predicate IsMethodCharacter(c: CodePoint) {
    c in CAPITAL_LETTERS || c in DECIMAL_DIGITS || c in METHOD_SYMBOLS
  }

  predicate IsMethodName(t: Text) {
    && t != [] && t[0] in CAPITAL_LETTERS
    && forall i | 0 <= i < |t| :: IsMethodCharacter(t[i])
  }

  /** An absolute path: no query, no fragment, no backslash and no control characters. */
  predicate IsAbsolutePath(t: Text) {
    && t != [] && t[0] == Lit("/")[0]
    && Lit("?")[0] !in t && Lit("#")[0] !in t && Lit("\\")[0] !in t && 127 !in t
    && forall i | 0 <= i < |t| :: t[i] >= 32
  }

  predicate MeetsTransport(t: Transport) {
    && HasLength(t.kind, 80) && IsPlainName(t.kind)
    && HasLength(t.service, 200) && IsPlainName(t.service)
    && HasLength(t.verb, 32) && IsMethodName(t.verb)
    && HasLength(t.path, 1000) && IsAbsolutePath(t.path)
    && (t.authProfile.Some? ==> |t.authProfile.value| <= 200 && IsPlainName(t.authProfile.value))
    && (t.tlsAliasProfile.Some? ==> |t.tlsAliasProfile.value| <= 200 && IsPlainName(t.tlsAliasProfile.value))
  }

  /** The constraints of the contract on what the claims say. */
  predicate MeetsContract(terms: GrantClaims) {
    && HasLength(terms.grantId, 200) && HasLength(terms.taskId, 160) && HasLength(terms.traceId, 160)
    && HasLength(terms.actionId, 160) && HasLength(terms.attemptId, 500) && HasLength(terms.idempotencyKey, 1000)
    && HasLength(terms.audience, 200) && HasLength(terms.issuer, 300) && HasLength(terms.keyId, 200)
    && IsHexHash(terms.requestHash)
    && MeetsTransport(terms.transport)
    && ValueOf(terms.issuedAt) >= 0.0 && ValueOf(terms.notBefore) >= 0.0 && ValueOf(terms.expiresAt) > 0.0
  }

  predicate Says(fields: map<Text, Json>, name: string, v: Json) {
    Lit(name) in fields && fields[Lit(name)] == v
  }

  /** A time is a float, or an integer that converts to it. */
  predicate SaysTime(rt: Runtime, fields: map<Text, Json>, name: string, d: Double) {
    Says(fields, name, Float(d))
    || (Lit(name) in fields && fields[Lit(name)].Int? && rt.floatOfInt(fields[Lit(name)].n) == Some(d))
  }

  /** A profile stands there as text, or is null or absent. */
  predicate SaysProfile(fields: map<Text, Json>, name: string, profile: Option<Text>) {
    match profile
    case Some(t) => Says(fields, name, Str(t))
    case None => Lit(name) !in fields || fields[Lit(name)] == Null
  }

  predicate SaysTransport(v: Json, t: Transport) {
    && v.Obj?
    && v.fields.Keys <= {Lit("type"), Lit("service"), Lit("method"), Lit("path"), Lit("auth_profile"), Lit("tls_alias_profile")}
    && Says(v.fields, "type", Str(t.kind)) && Says(v.fields, "service", Str(t.service))
    && Says(v.fields, "method", Str(t.verb)) && Says(v.fields, "path", Str(t.path))
    && SaysProfile(v.fields, "auth_profile", t.authProfile)
    && SaysProfile(v.fields, "tls_alias_profile", t.tlsAliasProfile)
  }

  /** The payload says exactly this, under the names of the contract; further claims may stand there. */
  predicate Stands(rt: Runtime, fields: map<Text, Json>, terms: GrantClaims) {
    && Says(fields, "schema_version", Str(Lit("capability-grant-v1")))
    && Says(fields, "max_uses", Int(1))
    && Says(fields, "signature_algorithm", Str(Lit("Ed25519")))
    && Says(fields, "grant_id", Str(terms.grantId))
    && Says(fields, "task_id", Str(terms.taskId))
    && Says(fields, "trace_id", Str(terms.traceId))
    && Says(fields, "action_id", Str(terms.actionId))
    && Says(fields, "attempt_id", Str(terms.attemptId))
    && Says(fields, "idempotency_key", Str(terms.idempotencyKey))
    && Says(fields, "audience", Str(terms.audience))
    && Says(fields, "issuer", Str(terms.issuer))
    && Says(fields, "key_id", Str(terms.keyId))
    && Says(fields, "request_hash", Str(terms.requestHash))
    && Says(fields, "grant_hash", Str(terms.grantHash))
    && SaysTime(rt, fields, "issued_at", terms.issuedAt)
    && SaysTime(rt, fields, "not_before", terms.notBefore)
    && SaysTime(rt, fields, "expires_at", terms.expiresAt)
    && Lit("transport") in fields && SaysTransport(fields[Lit("transport")], terms.transport)
  }

  // ----- the model's own checks are these -----

  lemma HashIsHex(t: Text)
    ensures IsHash(t) <==> IsHexHash(t)
  {
    forall c: CodePoint ensures c in LOWER_HEX <==> 48 <= c <= 57 || 97 <= c <= 102 {
      HexCharacters(c);
    }
  }

  lemma MethodSymbols(c: CodePoint)
    ensures c in METHOD_SYMBOLS <==>
      c == 33 || 35 <= c <= 39 || c == 42 || c == 43 || c == 45 || c == 46 || 94 <= c <= 96 || c == 124 || c == 126
  {
    var s := METHOD_SYMBOLS;
    assert s == [33, 35, 36, 37, 38, 39, 42, 43, 46, 94, 95, 96, 124, 126, 45];
  }

  lemma MethodCharacters(c: CodePoint)
    ensures IsMethodCharacter(c) <==> IsMethodChar(c)
  {
    CapitalLetters(c);
    DecimalDigits(c);
    MethodSymbols(c);
  }

  lemma MethodIsName(t: Text)
    ensures IsMethod(t) <==> IsMethodName(t)
  {
    forall c: CodePoint ensures IsMethodCharacter(c) <==> IsMethodChar(c) {
      MethodCharacters(c);
    }
    forall c: CodePoint ensures c in CAPITAL_LETTERS <==> 65 <= c <= 90 {
      CapitalLetters(c);
    }
  }

  lemma PathIsAbsolute(t: Text)
    ensures IsPath(t) <==> HasLength(t, 1000) && IsAbsolutePath(t)
  {
    assert Lit("/") == [47] && Lit("?") == [63] && Lit("#") == [35] && Lit("\\") == [92];
  }

  lemma IdentifierIsPlain(t: Text, max: nat)
    ensures IsIdentifier(t, max) <==> |t| <= max && IsPlainName(t)
  {
    StripFixesTrimmed(t);
  }

  lemma TransportIsMet(t: Transport)
    ensures ValidTransport(t) <==> MeetsTransport(t)
  {
    IdentifierIsPlain(t.kind, 80);
    IdentifierIsPlain(t.service, 200);
    MethodIsName(t.verb);
    PathIsAbsolute(t.path);
    if t.authProfile.Some? {
      IdentifierIsPlain(t.authProfile.value, 200);
    }
    if t.tlsAliasProfile.Some? {
      IdentifierIsPlain(t.tlsAliasProfile.value, 200);
    }
  }

  /** A transport is read from a JSON value iff the value says it and it meets the contract. */
  lemma TransportIsExact(v: Json, t: Transport)
    ensures ReadTransport(v) == Some(t) <==> SaysTransport(v, t) && MeetsTransport(t)
  {
    TransportIsMet(t);
    if v.Obj? {
      ProfileIsSaid(v.fields, AUTH_PROFILE_FIELD, "auth_profile", t.authProfile);
      ProfileIsSaid(v.fields, TLS_ALIAS_PROFILE_FIELD, "tls_alias_profile", t.tlsAliasProfile);
    }
  }

  lemma ProfileIsSaid(fields: map<Text, Json>, key: Text, name: string, profile: Option<Text>)
    requires key == Lit(name)
    ensures SaysProfile(fields, name, profile) <==> MayHaveText(fields, key) && TextOrNone(fields, key) == profile
  {
  }

  lemma TimeIsSaid(rt: Runtime, fields: map<Text, Json>, key: Text, name: string, d: FiniteDouble)
    requires key == Lit(name)
    ensures SaysTime(rt, fields, name, d) <==> NumberField(rt, fields, key) == Some(d)
  {
  }

  lemma ContractIsEnough(rt: Runtime, fields: map<Text, Json>, terms: GrantClaims)
    requires MeetsContract(terms) && IsHexHash(terms.grantHash) && Stands(rt, fields, terms)
    ensures MatchesSchema(rt, fields) && ReadClaims(rt, fields) == terms
  {
    HashIsHex(terms.requestHash);
    HashIsHex(terms.grantHash);
    TransportIsExact(fields[TRANSPORT], terms.transport);
    TimeIsSaid(rt, fields, ISSUED_AT, "issued_at", terms.issuedAt);
    TimeIsSaid(rt, fields, NOT_BEFORE, "not_before", terms.notBefore);
    TimeIsSaid(rt, fields, EXPIRES_AT, "expires_at", terms.expiresAt);
  }

  lemma ContractIsNeeded(rt: Runtime, fields: map<Text, Json>)
    requires MatchesSchema(rt, fields)
    ensures var terms := ReadClaims(rt, fields);
      MeetsContract(terms) && IsHexHash(terms.grantHash) && Stands(rt, fields, terms)
  {
    var terms := ReadClaims(rt, fields);
    HashIsHex(terms.requestHash);
    HashIsHex(terms.grantHash);
    TransportIsExact(fields[TRANSPORT], terms.transport);
    TimeIsSaid(rt, fields, ISSUED_AT, "issued_at", terms.issuedAt);
    TimeIsSaid(rt, fields, NOT_BEFORE, "not_before", terms.notBefore);
    TimeIsSaid(rt, fields, EXPIRES_AT, "expires_at", terms.expiresAt);
  }

  /** Some terms that meet the contract stand in the payload. */
  ghost predicate IsContract(rt: Runtime, fields: map<Text, Json>) {
    exists terms :: MeetsContract(terms) && IsHexHash(terms.grantHash) && Stands(rt, fields, terms)
  }

  lemma SchemaIsContract(rt: Runtime, fields: map<Text, Json>)
    ensures MatchesSchema(rt, fields) <==> IsContract(rt, fields)
  {
    if MatchesSchema(rt, fields) {
      ContractIsNeeded(rt, fields);
    }
    if terms :| MeetsContract(terms) && IsHexHash(terms.grantHash) && Stands(rt, fields, terms) {
      ContractIsEnough(rt, fields, terms);
    }
  }

  /** A header stands there, not empty, with this value. */
  predicate Repeats(headers: map<Text, Text>, name: string, value: Text) {
    Lit(name) in headers && headers[Lit(name)] == value != []
  }

  /** The six bound headers repeat their claims. */
  predicate RepeatsClaims(headers: map<Text, Text>, terms: GrantClaims) {
    && Repeats(headers, "X-AI-Local-Capability-Grant-ID", terms.grantId)
    && Repeats(headers, "X-Task-ID", terms.taskId)
    && Repeats(headers, "X-Trace-ID", terms.traceId)
    && Repeats(headers, "X-Agentic-Action-ID", terms.actionId)
    && Repeats(headers, "X-Agentic-Node-Attempt", terms.attemptId)
    && Repeats(headers, "Idempotency-Key", terms.idempotencyKey)
  }

  /** The schema accepts a payload, and reads these terms from it, iff the payload says them field by
      field and they meet the contract. */
  lemma SchemaIsExact(rt: Runtime, fields: map<Text, Json>, terms: GrantClaims)
    ensures MatchesSchema(rt, fields) && ReadClaims(rt, fields) == terms <==>
      MeetsContract(terms) && IsHexHash(terms.grantHash) && Stands(rt, fields, terms)
  {
    if MatchesSchema(rt, fields) {
      ContractIsNeeded(rt, fields);
    }
    if MeetsContract(terms) && IsHexHash(terms.grantHash) && Stands(rt, fields, terms) {
      ContractIsEnough(rt, fields, terms);
    }
  }

  // ----- upper case -----

  lemma CapitalOfSmall(i: nat)
    requires i < 26
    ensures Upper([SMALL_LETTERS[i]]) == [CAPITAL_LETTERS[i]]
  {
    assert SMALL_LETTERS[i] == 97 + i && CAPITAL_LETTERS[i] == 65 + i;
    assert [SMALL_LETTERS[i]][1..] == [];
  }

  lemma OtherAsciiStays(c: CodePoint)
    requires c < 0x80 && c !in SMALL_LETTERS
    ensures Upper([c]) == [c]
  {
    SmallLetters(c);
    assert [c][1..] == [];
  }

  /** The characters beyond ASCII whose capitals are ASCII letters. */
  lemma CapitalsBeyondAscii()
    ensures UpperChar(0xDF) == Lit("SS") && UpperChar(0x131) == Lit("I") && UpperChar(0x17F) == Lit("S")
    ensures UpperChar(0xFB00) == Lit("FF") && UpperChar(0xFB01) == Lit("FI") && UpperChar(0xFB02) == Lit("FL")
    ensures UpperChar(0xFB03) == Lit("FFI") && UpperChar(0xFB04) == Lit("FFL")
    ensures UpperChar(0xFB05) == Lit("ST") && UpperChar(0xFB06) == Lit("ST")
  {
  }
}
