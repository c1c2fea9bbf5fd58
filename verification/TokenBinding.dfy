/** One token, one request: what two requests have in common when one token is accepted for both. */
module TokenBinding {
  import opened Base
  import opened Json
  import opened JsonPrint
  import opened JsonRoundTrip
  import opened JsonTheorems
  import opened Hashing
  import opened Runtimes
  import opened Queries
  import opened Requests
  import opened Claims
  import opened Verifiers
  import opened VerifierTheorems
  import opened Dependencies

  /** A token means the same claims to every verifier that accepts it. */
  lemma TermsFollowToken(
    rt: Runtime, v: Verifier, token: Text, seen: Presented, w: Verifier, seen': Presented)
    requires FloatsRoundTrip(rt)
    requires Verify(rt, v, token, seen).Ok? && Verify(rt, w, token, seen').Ok?
    ensures Verify(rt, v, token, seen).value == Verify(rt, w, token, seen').value
  {
    var p, s := AcceptedIsGenuine(rt, v, token, seen);
    var q, t := AcceptedIsGenuine(rt, w, token, seen');
    SamePayload(rt, v.publicKey, w.publicKey, token);
    SoundIsRead(rt, p, Verify(rt, v, token, seen).value.terms);
    SoundIsRead(rt, q, Verify(rt, w, token, seen').value.terms);
  }

  lemma SamePayload(rt: Runtime, key: Bytes, other: Bytes, token: Text)
    requires OpenToken(rt, key, token).Ok? && OpenToken(rt, other, token).Ok?
    ensures OpenToken(rt, key, token) == OpenToken(rt, other, token)
  {
  }

  /** The canonical values print to two inputs of one digest. */
  ghost predicate ValuesCollide(rt: Runtime, v: Json, w: Json) {
    && CanonicalBytes(rt, v).Ok? && CanonicalBytes(rt, w).Ok?
    && Collision(rt, CanonicalBytes(rt, v).value, CanonicalBytes(rt, w).value)
  }

  lemma SameHashSameValue(rt: Runtime, v: Json, w: Json, hash: Text)
    requires FloatsRoundTrip(rt) && IsHashOf(rt, hash, v) && IsHashOf(rt, hash, w)
    ensures v == w || ValuesCollide(rt, v, w)
  {
    CanonicalBytesDefined(rt, v);
    CanonicalBytesDefined(rt, w);
    EqualHashes(rt, CanonicalBytes(rt, v).value, CanonicalBytes(rt, w).value);
    CanonicalBytesDecideEquality(rt, v, w);
  }

  /** The receiver passed this token for this request. */
  ghost predicate Accepts(rt: Runtime, call: Inbound, token: Text) {
    exists bound :: VerifyRequest(rt, call, token, bound).Ok?
  }

  /** The body that the receiver read and the query that it canonicalised. */
  function BodyOf(rt: Runtime, call: Inbound): Json
    requires Reconstruct(rt, call.request).Ok?
  {
    ReadBody(rt, call.request).value
  }

  function QueryOf(rt: Runtime, call: Inbound): map<Text, Json>
    requires Reconstruct(rt, call.request).Ok?
  {
    CanonicalQuery(rt, AsParams(call.request.query)).value
  }

  /** Equal query, and equal body where there is one, up to one request masking the other. */
  ghost predicate SameContent(rt: Runtime, a: Inbound, b: Inbound)
    requires Reconstruct(rt, a.request).Ok? && Reconstruct(rt, b.request).Ok?
  {
    var (x, q) := (BodyOf(rt, a), QueryOf(rt, a));
    var (y, r) := (BodyOf(rt, b), QueryOf(rt, b));
    if IsSafe(Upper(a.request.verb)) then q == r
    else (x == y && q == r) || Masks(x, q, y, r) || Masks(y, r, x, q)
  }

  lemma SameValueSameContent(rt: Runtime, a: Inbound, b: Inbound)
    requires Reconstruct(rt, a.request).Ok? && Reconstruct(rt, b.request).Ok?
    requires Upper(a.request.verb) == Upper(b.request.verb)
    ensures Reconstruct(rt, a.request) == Reconstruct(rt, b.request) <==> SameContent(rt, a, b)
  {
    var method_ := Upper(a.request.verb);
    MethodOfAccepted(rt, a);
    RequestValueInjective(rt, method_, BodyOf(rt, a), AsParams(a.request.query), BodyOf(rt, b), AsParams(b.request.query));
  }

  lemma MethodOfAccepted(rt: Runtime, call: Inbound)
    requires Reconstruct(rt, call.request).Ok?
    ensures var method_ := Upper(call.request.verb);
      && Reconstruct(rt, call.request) == CanonicalRequest(rt, method_, BodyOf(rt, call), AsParams(call.request.query))
      && Upper(method_) == method_
  {
    var method_ := Upper(call.request.verb);
    assert IsMethod(Upper(method_));
    UpperTwice(call.request.verb);
  }

  /** Upper-casing again changes nothing. */
  lemma {:induction false} UpperTwice(t: Text)
    ensures Upper(Upper(t)) == Upper(t)
  {
    if t != [] {
      UpperTwice(t[1..]);
      UpperCharTwice(t[0]);
      UpperAppend(UpperChar(t[0]), Upper(t[1..]));
    }
  }

  lemma UpperCharTwice(c: CodePoint)
    ensures Upper(UpperChar(c)) == UpperChar(c)
  {
    CapitalsOrSelf(c);
    if UpperChar(c) == [c] {
      UpperStays([c]);
    } else {
      UpperKeepsMethod(UpperChar(c));
    }
  }

  lemma CapitalsOrSelf(c: CodePoint)
    ensures UpperChar(c) == [c] || forall i | 0 <= i < |UpperChar(c)| :: 65 <= UpperChar(c)[i] <= 90
  {
  }

  lemma {:induction false} UpperStays(t: Text)
    requires forall i | 0 <= i < |t| :: UpperChar(t[i]) == [t[i]]
    ensures Upper(t) == t
  {
    if t != [] {
      UpperStays(t[1..]);
      assert t == [t[0]] + t[1..];
    }
  }

  lemma {:induction false} UpperAppend(a: Text, b: Text)
    ensures Upper(a + b) == Upper(a) + Upper(b)
  {
    if a == [] {
      assert a + b == b;
    } else {
      DropAppend(a, 1, b);
      UpperAppend(a[1..], b);
    }
  }

  /** One token is good for one request: two requests for which it is accepted, at any receivers,
      have the same method, path and transport, and the same content up to masking, or their
      canonical values are an explicit collision. */
  lemma OneTokenOneRequest(rt: Runtime, a: Inbound, b: Inbound, token: Text)
    requires FloatsRoundTrip(rt) && Accepts(rt, a, token) && Accepts(rt, b, token)
    ensures ReceiverTransport(a.dependency, a.request).Ok?
    ensures ReceiverTransport(a.dependency, a.request) == ReceiverTransport(b.dependency, b.request)
    ensures Upper(a.request.verb) == Upper(b.request.verb) && RawPath(a.request) == RawPath(b.request)
    ensures Reconstruct(rt, a.request).Ok? && Reconstruct(rt, b.request).Ok?
    ensures SameContent(rt, a, b)
         || ValuesCollide(rt, Reconstruct(rt, a.request).value, Reconstruct(rt, b.request).value)
  {
    var x :| VerifyRequest(rt, a, token, x).Ok?;
    var y :| VerifyRequest(rt, b, token, y).Ok?;
    var (g, t) := VerifyRequest(rt, a, token, x).value;
    var (h, u) := VerifyRequest(rt, b, token, y).value;
    var p, s := VerifiedRequestIsBound(rt, a, token, x, g, t);
    var q, r := VerifiedRequestIsBound(rt, b, token, y, h, u);
    SameGrant(rt, a, x, b, y, token);
    SameRoute(a, b, t);
    SameHashSameValue(rt, Reconstruct(rt, a.request).value, Reconstruct(rt, b.request).value, g.terms.requestHash);
    SameValueSameContent(rt, a, b);
  }

  lemma SameGrant(rt: Runtime, a: Inbound, x: map<Text, Text>, b: Inbound, y: map<Text, Text>, token: Text)
    requires FloatsRoundTrip(rt) && VerifyRequest(rt, a, token, x).Ok? && VerifyRequest(rt, b, token, y).Ok?
    ensures VerifyRequest(rt, a, token, x).value.0 == VerifyRequest(rt, b, token, y).value.0
  {
    var seen := Presented(Reconstruct(rt, a.request).value,
                          DumpTransport(ReceiverTransport(a.dependency, a.request).value), x, a.now);
    var seen' := Presented(Reconstruct(rt, b.request).value,
                           DumpTransport(ReceiverTransport(b.dependency, b.request).value), y, b.now);
    TermsFollowToken(rt, a.dependency.verifier, token, seen, b.dependency.verifier, seen');
  }

  lemma SameRoute(a: Inbound, b: Inbound, t: Transport)
    requires ReceiverTransport(a.dependency, a.request) == Ok(t) == ReceiverTransport(b.dependency, b.request)
    ensures Upper(a.request.verb) == t.verb == Upper(b.request.verb)
    ensures RawPath(a.request) == Ok(t.path) == RawPath(b.request)
  {
  }

  /** A request that is let through carries the grant that any verifier reads from its token. */
  lemma ReadySharesGrant(rt: Runtime, v: Verifier, token: Text, seen: Presented, call: Inbound)
    requires FloatsRoundTrip(rt) && Verify(rt, v, token, seen).Ok?
    requires SingleHeader(call.request.headers, GRANT_HEADER) == Ok(token) && Prepare(rt, call).Ready?
    ensures Prepare(rt, call).grant == Verify(rt, v, token, seen).value
  {
    var grant, redemption := Prepare(rt, call).grant, Prepare(rt, call).redemption;
    var bound := CollectHeaders(call.request.headers, BOUND_HEADER_NAMES).value;
    ReadyIsEntitled(rt, call, grant, redemption);
    var seen' := Presented(Reconstruct(rt, call.request).value,
                           DumpTransport(ReceiverTransport(call.dependency, call.request).value), bound, call.now);
    TermsFollowToken(rt, v, token, seen, call.dependency.verifier, seen');
  }
}
