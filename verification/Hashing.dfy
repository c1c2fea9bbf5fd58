/** SHA-256 over canonical JSON, printed as lower-case hexadecimal. */
module Hashing {
  import opened Base
  import opened Json
  import opened JsonPrint
  import opened Runtimes

  function Hex(b: Bytes): (t: Text)
    ensures |t| == 2 * |b|
    ensures forall i | 0 <= i < |t| :: 48 <= t[i] <= 57 || 97 <= t[i] <= 102
  {
    if b == [] then [] else [HexDigit(b[0] / 16), HexDigit(b[0] % 16)] + Hex(b[1..])
  }

  /** The pattern `^[0-9a-f]{64}$`. */
  predicate IsHash(t: Text) {
    |t| == 64 && forall i | 0 <= i < |t| :: 48 <= t[i] <= 57 || 97 <= t[i] <= 102
  }

  lemma {:induction false} HexInjective(a: Bytes, b: Bytes)
    requires Hex(a) == Hex(b)
    ensures a == b
  {
    if a != [] && b != [] {
      ConsHex(a);
      ConsHex(b);
      HexInjective(a[1..], b[1..]);
      assert a[0] == a[0] / 16 * 16 + a[0] % 16 && b[0] == b[0] / 16 * 16 + b[0] % 16;
      assert a == [a[0]] + a[1..] && b == [b[0]] + b[1..];
    }
  }

  lemma ConsHex(a: Bytes)
    requires a != []
    ensures Hex(a)[0] == HexDigit(a[0] / 16) && Hex(a)[1] == HexDigit(a[0] % 16) && Hex(a)[2..] == Hex(a[1..])
  {
  }

  /** Byte after byte, the high digit first. */
  lemma {:induction false} HexSpelledOut(b: Bytes, i: nat)
    requires i < |b|
    ensures Hex(b)[2 * i] == LOWER_HEX[b[i] / 16] && Hex(b)[2 * i + 1] == LOWER_HEX[b[i] % 16]
  {
    ConsHex(b);
    if i == 0 {
      HexDigitSpelledOut(b[0] / 16);
      HexDigitSpelledOut(b[0] % 16);
    } else {
      HexSpelledOut(b[1..], i - 1);
      assert Hex(b)[2 * i] == Hex(b)[2..][2 * i - 2] && Hex(b)[2 * i + 1] == Hex(b)[2..][2 * i - 1];
    }
  }

  lemma HexDigitSpelledOut(n: nat)
    requires n < 16
    ensures HexDigit(n) == LOWER_HEX[n]
  {
    assert forall i | 0 <= i < 10 :: LOWER_HEX[i] == 48 + i;
    assert forall i | 10 <= i < 16 :: LOWER_HEX[i] == 87 + i;
  }

  function Sha256Hex(rt: Runtime, b: Bytes): (t: Text)
    ensures IsHash(t)
  {
    Hex(rt.sha256(b))
  }

  /** Two different inputs with one digest. */
  predicate Collision(rt: Runtime, a: Bytes, b: Bytes) {
    a != b && rt.sha256(a) == rt.sha256(b)
  }

  lemma EqualHashes(rt: Runtime, a: Bytes, b: Bytes)
    requires Sha256Hex(rt, a) == Sha256Hex(rt, b)
    ensures a == b || Collision(rt, a, b)
  {
    HexInjective(rt.sha256(a), rt.sha256(b));
  }

  function CanonicalSha256(rt: Runtime, v: Json): (r: Result<Text>)
    ensures r.Ok? ==> IsHash(r.value)
  {
    var b :- CanonicalBytes(rt, v);
    Ok(Sha256Hex(rt, b))
  }

  predicate IsAscii(t: Text) {
    forall i | 0 <= i < |t| :: t[i] < 0x80
  }

  function AsciiBytes(t: Text): Bytes
    requires IsAscii(t)
  {
    seq(|t|, i requires 0 <= i < |t| => t[i])
  }

  function TokenFingerprint(rt: Runtime, token: Text): (r: Result<Text>)
    ensures r.Ok? ==> IsHash(r.value)
  {
    var _ :- Need(token != [], Format("capability_grant_token_missing"));
    if IsAscii(token) then Ok(Sha256Hex(rt, AsciiBytes(token)))
    else Err(Format("capability_grant_token_not_ascii"))
  }

  /** Exactly the non-empty ASCII tokens have a fingerprint, the two failures are told apart, and
      tokens with one fingerprint are equal or an explicit collision. */
  lemma FingerprintPinsTheToken(rt: Runtime, token: Text, other: Text)
    ensures TokenFingerprint(rt, token).Ok? <==> token != [] && IsAscii(token)
    ensures TokenFingerprint(rt, token) == Err(Format("capability_grant_token_missing")) <==> token == []
    ensures TokenFingerprint(rt, token).Ok? && TokenFingerprint(rt, token) == TokenFingerprint(rt, other) ==>
      token == other || Collision(rt, AsciiBytes(token), AsciiBytes(other))
  {
    assert |"capability_grant_token_missing"| != |"capability_grant_token_not_ascii"|;
    if TokenFingerprint(rt, token).Ok? && TokenFingerprint(rt, token) == TokenFingerprint(rt, other) {
      EqualHashes(rt, AsciiBytes(token), AsciiBytes(other));
      AsciiInjective(token, other);
    }
  }

  lemma AsciiInjective(t: Text, u: Text)
    requires IsAscii(t) && IsAscii(u)
    ensures AsciiBytes(t) == AsciiBytes(u) <==> t == u
  {
    if AsciiBytes(t) == AsciiBytes(u) {
      assert |t| == |AsciiBytes(t)| == |u|;
      forall i | 0 <= i < |t| ensures t[i] == u[i] {
        assert AsciiBytes(t)[i] == AsciiBytes(u)[i];
      }
    }
  }
}
