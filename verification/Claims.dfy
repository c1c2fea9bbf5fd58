/** The transport and the signed claims: what the schemas accept and what they read. */
module Claims {
  import opened Base
  import opened Json
  import opened Hashing
  import opened Runtimes
  import opened Requests

  const SCHEMA_VERSION := Lit("schema_version")
  const GRANT_ID := Lit("grant_id")
  const TASK_ID := Lit("task_id")
  const TRACE_ID := Lit("trace_id")
  const ACTION_ID := Lit("action_id")
  const ATTEMPT_ID := Lit("attempt_id")
  const IDEMPOTENCY_KEY := Lit("idempotency_key")
  const AUDIENCE := Lit("audience")
  const REQUEST_HASH := Lit("request_hash")
  const TRANSPORT := Lit("transport")
  const ISSUED_AT := Lit("issued_at")
  const NOT_BEFORE := Lit("not_before")
  const EXPIRES_AT := Lit("expires_at")
  const MAX_USES := Lit("max_uses")
  const ISSUER := Lit("issuer")
  const KEY_ID := Lit("key_id")
  const SIGNATURE_ALGORITHM := Lit("signature_algorithm")
  const GRANT_HASH := Lit("grant_hash")
  const SIGNATURE := Lit("signature")

  // ----- transport -----

  datatype Transport = Transport(
    kind: Text,
    service: Text,
    verb: Text,
    path: Text,
    authProfile: Option<Text>,
    tlsAliasProfile: Option<Text>)

  predicate IsIdentifier(t: Text, max: nat) {
    |t| <= max && IsTrimmed(t) && forall i | 0 <= i < |t| :: t[i] >= 0x20
  }

  predicate IsPathChar(c: CodePoint) {
    c >= 0x20 && c != 0x7F && c != 63 && c != 35 && c != 92
  }

  predicate IsPath(t: Text) {
    1 <= |t| <= 1000 && t[0] == 47 && forall i | 0 <= i < |t| :: IsPathChar(t[i])
  }

  predicate IsProfile(t: Option<Text>) {
    t.Some? ==> IsIdentifier(t.value, 200)
  }

  predicate ValidTransport(t: Transport) {
    && t.kind != [] && IsIdentifier(t.kind, 80)
    && t.service != [] && IsIdentifier(t.service, 200)
    && IsMethod(t.verb) && |t.verb| <= 32
    && IsPath(t.path)
    && IsProfile(t.authProfile)
    && IsProfile(t.tlsAliasProfile)
  }

  const TYPE_FIELD := Lit("type")
  const SERVICE_FIELD := Lit("service")
  const METHOD_FIELD := Lit("method")
  const PATH_FIELD := Lit("path")
  const AUTH_PROFILE_FIELD := Lit("auth_profile")
  const TLS_ALIAS_PROFILE_FIELD := Lit("tls_alias_profile")

  lemma TransportKeysDiffer()
    ensures SERVICE_FIELD != TYPE_FIELD && METHOD_FIELD != TYPE_FIELD && PATH_FIELD != TYPE_FIELD
    ensures METHOD_FIELD != SERVICE_FIELD && PATH_FIELD != SERVICE_FIELD && PATH_FIELD != METHOD_FIELD
    ensures AUTH_PROFILE_FIELD !in {TYPE_FIELD, SERVICE_FIELD, METHOD_FIELD, PATH_FIELD}
    ensures TLS_ALIAS_PROFILE_FIELD !in {TYPE_FIELD, SERVICE_FIELD, METHOD_FIELD, PATH_FIELD, AUTH_PROFILE_FIELD}
  {
    assert |TYPE_FIELD| == 4 && |SERVICE_FIELD| == 7 && |METHOD_FIELD| == 6 && |PATH_FIELD| == 4;
    assert |AUTH_PROFILE_FIELD| == 12 && |TLS_ALIAS_PROFILE_FIELD| == 17;
    assert TYPE_FIELD[0] != PATH_FIELD[0];
  }

  function OptionalText(t: Option<Text>): Json {
    match t
    case None => Null
    case Some(text) => Str(text)
  }

  /** `transport.model_dump(mode="json")`. */
  function DumpTransport(t: Transport): Json {
    Obj(map[
      TYPE_FIELD := Str(t.kind),
      SERVICE_FIELD := Str(t.service),
      METHOD_FIELD := Str(t.verb),
      PATH_FIELD := Str(t.path),
      AUTH_PROFILE_FIELD := OptionalText(t.authProfile),
      TLS_ALIAS_PROFILE_FIELD := OptionalText(t.tlsAliasProfile)])
  }

  predicate HasText(fields: map<Text, Json>, key: Text) {
    key in fields && fields[key].Str?
  }

  predicate MayHaveText(fields: map<Text, Json>, key: Text) {
    key in fields ==> fields[key].Str? || fields[key].Null?
  }

  function TextOrNone(fields: map<Text, Json>, key: Text): Option<Text> {
    if HasText(fields, key) then Some(fields[key].t) else None
  }

  /** Exactly the six known fields are allowed, the two profiles may be missing or null. */
  predicate HasTransportShape(v: Json) {
    && v.Obj?
    && v.fields.Keys <= {TYPE_FIELD, SERVICE_FIELD, METHOD_FIELD, PATH_FIELD, AUTH_PROFILE_FIELD, TLS_ALIAS_PROFILE_FIELD}
    && HasText(v.fields, TYPE_FIELD) && HasText(v.fields, SERVICE_FIELD)
    && HasText(v.fields, METHOD_FIELD) && HasText(v.fields, PATH_FIELD)
    && MayHaveText(v.fields, AUTH_PROFILE_FIELD) && MayHaveText(v.fields, TLS_ALIAS_PROFILE_FIELD)
  }

  /** `CapabilityGrantTransport.model_validate` on a JSON value. */
  function ReadTransport(v: Json): (t: Option<Transport>)
    ensures t.Some? ==> ValidTransport(t.value)
  {
    if !HasTransportShape(v) then None
    else
      var t := Transport(
        v.fields[TYPE_FIELD].t, v.fields[SERVICE_FIELD].t, v.fields[METHOD_FIELD].t, v.fields[PATH_FIELD].t,
        TextOrNone(v.fields, AUTH_PROFILE_FIELD), TextOrNone(v.fields, TLS_ALIAS_PROFILE_FIELD));
      if ValidTransport(t) then Some(t) else None
  }

  /** A valid transport survives its JSON form. */
  lemma ReadDumpedTransport(t: Transport)
    requires ValidTransport(t)
    ensures ReadTransport(DumpTransport(t)) == Some(t)
  {
    TransportKeysDiffer();
  }

  // ----- claims -----

  /** Validated numbers are finite. */
  type FiniteDouble = d: Double | d.Finite? witness Finite(false, 0, -1074)

  datatype GrantClaims = GrantClaims(
    grantId: Text,
    taskId: Text,
    traceId: Text,
    actionId: Text,
    attemptId: Text,
    idempotencyKey: Text,
    audience: Text,
    requestHash: Text,
    transport: Transport,
    issuedAt: FiniteDouble,
    notBefore: FiniteDouble,
    expiresAt: FiniteDouble,
    issuer: Text,
    keyId: Text,
    grantHash: Text)

  predicate HasBoundedText(fields: map<Text, Json>, key: Text, max: nat) {
    HasText(fields, key) && 1 <= |fields[key].t| <= max
  }

  predicate HasHash(fields: map<Text, Json>, key: Text) {
    HasText(fields, key) && IsHash(fields[key].t)
  }

  /** A strict float field takes a JSON float, or an integer that converts to one. */
  function NumberField(rt: Runtime, fields: map<Text, Json>, key: Text): Option<FiniteDouble> {
    if key !in fields then None
    else
      match fields[key]
      case Float(d) => if d.Finite? then Some(d) else None
      case Int(n) =>
        (match rt.floatOfInt(n)
         case None => None
         case Some(d) => if d.Finite? then Some(d) else None)
      case _ => None
  }

  predicate HasTimes(rt: Runtime, fields: map<Text, Json>) {
    && NumberField(rt, fields, ISSUED_AT).Some? && ValueOf(NumberField(rt, fields, ISSUED_AT).value) >= 0.0
    && NumberField(rt, fields, NOT_BEFORE).Some? && ValueOf(NumberField(rt, fields, NOT_BEFORE).value) >= 0.0
    && NumberField(rt, fields, EXPIRES_AT).Some? && ValueOf(NumberField(rt, fields, EXPIRES_AT).value) > 0.0
  }

  predicate HasLiteral(fields: map<Text, Json>, key: Text, v: Json) {
    key in fields && fields[key] == v
  }

  /** `_RequiredGrantClaims` accepts the payload; further claims are allowed and stay unread. */
  predicate MatchesSchema(rt: Runtime, fields: map<Text, Json>) {
    && HasLiteral(fields, SCHEMA_VERSION, Str(Lit("capability-grant-v1")))
    && HasBoundedText(fields, GRANT_ID, 200)
    && HasBoundedText(fields, TASK_ID, 160)
    && HasBoundedText(fields, TRACE_ID, 160)
    && HasBoundedText(fields, ACTION_ID, 160)
    && HasBoundedText(fields, ATTEMPT_ID, 500)
    && HasBoundedText(fields, IDEMPOTENCY_KEY, 1000)
    && HasBoundedText(fields, AUDIENCE, 200)
    && HasHash(fields, REQUEST_HASH)
    && TRANSPORT in fields && ReadTransport(fields[TRANSPORT]).Some?
    && HasTimes(rt, fields)
    && HasLiteral(fields, MAX_USES, Int(1))
    && HasBoundedText(fields, ISSUER, 300)
    && HasBoundedText(fields, KEY_ID, 200)
    && HasLiteral(fields, SIGNATURE_ALGORITHM, Str(Lit("Ed25519")))
    && HasHash(fields, GRANT_HASH)
  }

  function ReadClaims(rt: Runtime, fields: map<Text, Json>): GrantClaims
    requires MatchesSchema(rt, fields)
  {
    GrantClaims(
      fields[GRANT_ID].t, fields[TASK_ID].t, fields[TRACE_ID].t, fields[ACTION_ID].t, fields[ATTEMPT_ID].t,
      fields[IDEMPOTENCY_KEY].t, fields[AUDIENCE].t, fields[REQUEST_HASH].t, ReadTransport(fields[TRANSPORT]).value,
      NumberField(rt, fields, ISSUED_AT).value, NumberField(rt, fields, NOT_BEFORE).value,
      NumberField(rt, fields, EXPIRES_AT).value, fields[ISSUER].t, fields[KEY_ID].t, fields[GRANT_HASH].t)
  }
}
