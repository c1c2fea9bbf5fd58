/** Which grants can be presented in an HTTP request at all: their bound claims in header fields, their
    path in the request target. */
module Presenting {
  import opened Base
  import opened Hashing
  import opened Requests
  import opened Claims
  import opened Verifiers
  import opened Dependencies
  import Utf8

  /** The framework decodes header values as Latin-1, and no field value holds NUL, CR or LF (RFC 9110,
      section 5.5). */
  predicate IsFieldText(t: Text) {
    forall i | 0 <= i < |t| :: t[i] < 0x100 && t[i] != 0 && t[i] != 10 && t[i] != 13
  }

  predicate IsWireHeaders(headers: seq<(Text, Text)>) {
    forall i | 0 <= i < |headers| :: IsFieldText(headers[i].1)
  }

  /** The path can stand in a request: ASCII, with one leading slash only. */
  predicate IsWirePath(path: Text) {
    IsAscii(path) && IsRawPath(path)
  }

  /** The receiver's header checks find the token and, under each bound name, the claim. */
  ghost predicate PresentsGrant(headers: seq<(Text, Text)>, token: Text, terms: GrantClaims) {
    && SingleHeader(headers, GRANT_HEADER) == Ok(token)
    && forall i | 0 <= i < 6 :: SingleHeader(headers, BoundHeaders(terms)[i].0) == Ok(BoundHeaders(terms)[i].1)
  }

  /** None of the six bound claims has white space at either end. */
  predicate HasTrimmedClaims(terms: GrantClaims) {
    forall i | 0 <= i < 6 :: IsTrimmed(BoundHeaders(terms)[i].1)
  }

  /** The six bound claims are what a header can carry. */
  predicate IsPresentable(terms: GrantClaims) {
    HasTrimmedClaims(terms) && forall i | 0 <= i < 6 :: IsFieldText(BoundHeaders(terms)[i].1)
  }

  /** What a caller sends: the token and the six claims, each in one header of its own. */
  ghost predicate SendsGrant(headers: seq<(Text, Text)>, token: Text, terms: GrantClaims) {
    && HeaderValues(headers, GRANT_HEADER) == [token]
    && forall i | 0 <= i < 6 :: HeaderValues(headers, BoundHeaders(terms)[i].0) == [BoundHeaders(terms)[i].1]
  }

  lemma StripTrims(t: Text)
    ensures IsTrimmed(Strip(t))
  {
    var s := TrimLeft(t);
    TrimLeftEnd(t);
    TrimRightEnd(s);
    TrimRightPrefix(s);
  }

  lemma StripFieldText(t: Text)
    requires IsFieldText(t)
    ensures IsFieldText(Strip(t))
  {
    TrimLeftSuffix(t);
    TrimRightPrefix(TrimLeft(t));
  }

  lemma {:induction false} ValuesAreFieldText(headers: seq<(Text, Text)>, name: Text)
    requires IsWireHeaders(headers)
    ensures forall i | 0 <= i < |HeaderValues(headers, name)| :: IsFieldText(HeaderValues(headers, name)[i])
  {
    if headers != [] {
      ValuesAreFieldText(headers[1..], name);
    }
  }

  /** Whatever the header check returns is trimmed, and a field text when it came over the wire. */
  lemma SingleHeaderShape(headers: seq<(Text, Text)>, name: Text)
    requires SingleHeader(headers, name).Ok?
    ensures IsTrimmed(SingleHeader(headers, name).value)
    ensures IsWireHeaders(headers) ==> IsFieldText(SingleHeader(headers, name).value)
  {
    var values := HeaderValues(headers, name);
    StripTrims(values[0]);
    if IsWireHeaders(headers) {
      ValuesAreFieldText(headers, name);
      StripFieldText(values[0]);
    }
  }

  /** A single value without outer white space comes through unchanged. */
  lemma SentIsFound(headers: seq<(Text, Text)>, name: Text, value: Text)
    requires HeaderValues(headers, name) == [value] && value != [] && IsTrimmed(value)
    ensures SingleHeader(headers, name) == Ok(value)
  {
    StripFixesTrimmed(value);
  }

  lemma SentIsPresented(headers: seq<(Text, Text)>, token: Text, terms: GrantClaims)
    requires SendsGrant(headers, token, terms) && HasTrimmedClaims(terms)
    requires token != [] && IsTrimmed(token) && forall i | 0 <= i < 6 :: BoundHeaders(terms)[i].1 != []
    ensures PresentsGrant(headers, token, terms)
  {
    SentIsFound(headers, GRANT_HEADER, token);
    forall i | 0 <= i < 6 ensures SingleHeader(headers, BoundHeaders(terms)[i].0) == Ok(BoundHeaders(terms)[i].1) {
      SentIsFound(headers, BoundHeaders(terms)[i].0, BoundHeaders(terms)[i].1);
    }
  }

  function GrantHeaders(token: Text, terms: GrantClaims): seq<(Text, Text)> {
    [(GRANT_HEADER, token)] + BoundHeaders(terms)
  }

  /** No two of these names have the same length, so none is another in different case. */
  lemma HeaderNameLengths(token: Text, terms: GrantClaims)
    ensures forall i, j | 0 <= i < j < 7 :: |GrantHeaders(token, terms)[i].0| != |GrantHeaders(token, terms)[j].0|
  {
    assert |GRANT_HEADER| == 27 && |GRANT_ID_HEADER| == 30 && |TASK_ID_HEADER| == 9 && |TRACE_ID_HEADER| == 10;
    assert |ACTION_ID_HEADER| == 19 && |ATTEMPT_ID_HEADER| == 22 && |IDEMPOTENCY_HEADER| == 15;
  }

  lemma {:induction false} OtherLengths(headers: seq<(Text, Text)>, name: Text)
    requires forall i | 0 <= i < |headers| :: |headers[i].0| != |name|
    ensures HeaderValues(headers, name) == []
  {
    if headers != [] {
      assert |AsciiLower(headers[0].0)| != |AsciiLower(name)|;
      OtherLengths(headers[1..], name);
    }
  }

  lemma {:induction false} OnlyOne(headers: seq<(Text, Text)>, i: nat)
    requires i < |headers|
    requires forall j | 0 <= j < |headers| && j != i :: |headers[j].0| != |headers[i].0|
    ensures HeaderValues(headers, headers[i].0) == [headers[i].1]
  {
    if i == 0 {
      OtherLengths(headers[1..], headers[0].0);
    } else {
      assert |AsciiLower(headers[0].0)| != |AsciiLower(headers[i].0)|;
      OnlyOne(headers[1..], i - 1);
    }
  }

  lemma GrantHeadersSend(token: Text, terms: GrantClaims)
    ensures SendsGrant(GrantHeaders(token, terms), token, terms)
  {
    var headers := GrantHeaders(token, terms);
    HeaderNameLengths(token, terms);
    OnlyOne(headers, 0);
    forall i | 0 <= i < 6 ensures HeaderValues(headers, BoundHeaders(terms)[i].0) == [BoundHeaders(terms)[i].1] {
      assert headers[i + 1] == BoundHeaders(terms)[i];
      OnlyOne(headers, i + 1);
    }
  }

  /** Some request can present a grant iff its six bound claims are presentable. */
  lemma PresentableExactly(token: Text, terms: GrantClaims)
    requires token != [] && IsTrimmed(token) && IsFieldText(token)
    requires forall i | 0 <= i < 6 :: BoundHeaders(terms)[i].1 != []
    ensures (exists headers :: IsWireHeaders(headers) && PresentsGrant(headers, token, terms)) <==> IsPresentable(terms)
  {
    if headers :| IsWireHeaders(headers) && PresentsGrant(headers, token, terms) {
      PresentedIsPresentable(headers, token, terms);
    }
    if IsPresentable(terms) {
      GrantHeadersSend(token, terms);
      SentIsPresented(GrantHeaders(token, terms), token, terms);
      assert IsWireHeaders(GrantHeaders(token, terms));
    }
  }

  lemma PresentedIsPresentable(headers: seq<(Text, Text)>, token: Text, terms: GrantClaims)
    requires IsWireHeaders(headers) && PresentsGrant(headers, token, terms)
    ensures IsPresentable(terms)
  {
    forall i | 0 <= i < 6 ensures IsTrimmed(BoundHeaders(terms)[i].1) && IsFieldText(BoundHeaders(terms)[i].1) {
      SingleHeaderShape(headers, BoundHeaders(terms)[i].0);
    }
  }

  // ----- the path -----

  lemma {:induction false} AsciiEncodes(t: Text)
    requires IsAscii(t)
    ensures Utf8.Encodable(t) && Widen(Utf8.Encode(t)) == t
    ensures forall i | 0 <= i < |Utf8.Encode(t)| :: Utf8.Encode(t)[i] < 0x80
  {
    if t != [] {
      AsciiEncodes(t[1..]);
      assert Utf8.Encode(t) == [t[0]] + Utf8.Encode(t[1..]);
      assert t == [t[0]] + t[1..];
      assert Widen(Utf8.Encode(t)) == [t[0]] + Widen(Utf8.Encode(t[1..]));
    }
  }

  lemma {:induction false} NonAsciiEncodes(t: Text)
    requires Utf8.Encodable(t) && !IsAscii(t)
    ensures exists i :: 0 <= i < |Utf8.Encode(t)| && Utf8.Encode(t)[i] >= 0x80
  {
    var rest := Utf8.Encode(t[1..]);
    assert Utf8.Encode(t) == Utf8.EncodeOne(t[0]) + rest;
    if t[0] >= 0x80 {
      assert Utf8.Encode(t)[0] == Utf8.EncodeOne(t[0])[0];
    } else {
      assert t == [t[0]] + t[1..];
      NonAsciiEncodes(t[1..]);
      var i :| 0 <= i < |rest| && rest[i] >= 0x80;
      assert Utf8.Encode(t)[|Utf8.EncodeOne(t[0])| + i] == rest[i];
    }
  }

  /** What a caller sends: the method and the path of the transport. */
  ghost predicate SendsTo(request: Request, t: Transport) {
    && Upper(request.verb) == t.verb
    && (Utf8.Encodable(t.path) ==> request.rawPath == Some(Utf8.Encode(t.path)))
  }

  /** The raw path comes through iff it is a wire path, and then unchanged. */
  lemma SentPath(request: Request, path: Text)
    requires path != [] && Utf8.Encodable(path) && request.rawPath == Some(Utf8.Encode(path))
    ensures RawPath(request).Ok? <==> IsWirePath(path)
    ensures RawPath(request).Ok? ==> RawPath(request) == Ok(path)
  {
    if IsAscii(path) {
      AsciiEncodes(path);
      assert |Widen(Utf8.Encode(path))| == |path|;
    } else {
      NonAsciiEncodes(path);
    }
  }

  /** A path that came through is a wire path. */
  lemma RawPathIsWire(request: Request)
    requires RawPath(request).Ok?
    ensures IsWirePath(RawPath(request).value)
  {
    var raw := request.rawPath.value;
    assert RawPath(request).value == Widen(raw);
    assert forall i | 0 <= i < |raw| :: raw[i] < 0x80;
  }

  /** The dependency is configured for this kind, service and these profiles. */
  predicate IsRouteOf(dependency: Dependency, t: Transport) {
    && dependency.transportType == t.kind && dependency.service == t.service
    && dependency.authProfile == t.authProfile && dependency.tlsAliasProfile == t.tlsAliasProfile
  }

  lemma RouteIsSeen(dependency: Dependency, request: Request, t: Transport)
    requires ValidTransport(t) && IsRouteOf(dependency, t) && SendsTo(request, t) && IsWirePath(t.path)
    ensures ReceiverTransport(dependency, request) == Ok(t)
  {
    AsciiEncodes(t.path);
    SentPath(request, t.path);
  }

  lemma SeenPathIsWire(dependency: Dependency, request: Request)
    requires ReceiverTransport(dependency, request).Ok?
    ensures IsWirePath(ReceiverTransport(dependency, request).value.path)
  {
    RawPathIsWire(request);
  }
}
