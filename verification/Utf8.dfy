/** Strict UTF-8 as used by `str.encode` and `bytes.decode` (RFC 3629, section 3). */
module Utf8 {
  import opened Base

  predicate IsSurrogate(c: CodePoint) {
    0xD800 <= c < 0xE000
  }

  /** `value.encode("utf-8", errors="strict")` succeeds on exactly these strings. */
  predicate Encodable(t: Text) {
    forall i | 0 <= i < |t| :: !IsSurrogate(t[i])
  }

  function EncodeOne(c: CodePoint): (b: Bytes)
    ensures 1 <= |b| <= 4
  {
    var c1, c2 := c / 0x40, c / 0x40 / 0x40;
    if c < 0x80 then [c]
    else if c < 0x800 then [0xC0 + c1, 0x80 + c % 0x40]
    else if c < 0x1_0000 then [0xE0 + c2, 0x80 + c1 % 0x40, 0x80 + c % 0x40]
    else [0xF0 + c2 / 0x40, 0x80 + c2 % 0x40, 0x80 + c1 % 0x40, 0x80 + c % 0x40]
  }

  function Encode(t: Text): (b: Bytes)
    requires Encodable(t)
  {
    if t == [] then [] else EncodeOne(t[0]) + Encode(t[1..])
  }

  predicate IsTail(b: Byte) {
    0x80 <= b < 0xC0
  }

  /** The number spelled by a lead value and the six payload bits of each tail byte. */
  function Join(lead: int, tails: Bytes): (c: int)
    decreases |tails|
  {
    if tails == [] then lead else Join(lead * 0x40 + (tails[0] as int - 0x80), tails[1..])
  }

  lemma Join1(lead: int, x: Byte)
    ensures Join(lead, [x]) == lead * 0x40 + (x as int - 0x80)
  {
  }

  lemma Join2(lead: int, x: Byte, y: Byte)
    ensures Join(lead, [x, y]) == (lead * 0x40 + (x as int - 0x80)) * 0x40 + (y as int - 0x80)
  {
    Join1(lead * 0x40 + (x as int - 0x80), y);
    assert [x, y][1..] == [y];
  }

  lemma Join3(lead: int, x: Byte, y: Byte, z: Byte)
    ensures Join(lead, [x, y, z])
         == ((lead * 0x40 + (x as int - 0x80)) * 0x40 + (y as int - 0x80)) * 0x40 + (z as int - 0x80)
  {
    Join2(lead * 0x40 + (x as int - 0x80), y, z);
    assert [x, y, z][1..] == [y, z];
  }

  /** The tail bytes that follow a lead byte, when there are that many. */
  function Tails(b: Bytes, n: nat): (r: Option<Bytes>)
    ensures r.Some? ==> |b| > n && r.value == b[1..n + 1]
    ensures r.Some? ==> forall i | 1 <= i <= n :: IsTail(b[i])
  {
    if |b| > n && forall i | 1 <= i <= n :: IsTail(b[i]) then Some(b[1..n + 1]) else None
  }

  /** A code point at least `low` that is not a surrogate, with its byte count. */
  function InRange(c: int, low: int, n: nat): (r: Option<(CodePoint, nat)>)
    requires 0 <= low
  {
    if low <= c < 0x11_0000 && !(0xD800 <= c < 0xE000) then Some((c, n)) else None
  }

  /** The first character of the bytes and how many bytes it takes; overlong forms,
      surrogates and values past the last code point have no reading. */
  function DecodeOne(b: Bytes): (r: Option<(CodePoint, nat)>)
    ensures r.Some? ==> 0 < r.value.1 <= |b|
  {
    if b == [] then None
    else
      var lead: int := b[0];
      if lead < 0x80 then Some((lead, 1))
      else if 0xC0 <= lead < 0xE0 && Tails(b, 1).Some? then InRange(Join(lead - 0xC0, b[1..2]), 0x80, 2)
      else if 0xE0 <= lead < 0xF0 && Tails(b, 2).Some? then InRange(Join(lead - 0xE0, b[1..3]), 0x800, 3)
      else if 0xF0 <= lead < 0xF8 && Tails(b, 3).Some? then InRange(Join(lead - 0xF0, b[1..4]), 0x1_0000, 4)
      else None
  }

  function Decode(b: Bytes): (r: Option<Text>) {
    if b == [] then Some([])
    else
      match DecodeOne(b)
      case None => None
      case Some((c, n)) =>
        match Decode(b[n..])
        case None => None
        case Some(t) => Some([c] + t)
  }

  lemma DecodeOneInverts(c: CodePoint, rest: Bytes)
    requires !IsSurrogate(c)
    ensures DecodeOne(EncodeOne(c) + rest) == Some((c, |EncodeOne(c)|))
  {
    var e := EncodeOne(c);
    var b := e + rest;
    assert b[0] == e[0];
    if 0x80 <= c < 0x800 {
      assert b[1..2] == [e[1]];
      Join1(c / 0x40, e[1]);
    } else if 0x800 <= c < 0x1_0000 {
      assert b[1..3] == [e[1], e[2]];
      Join2(c / 0x40 / 0x40, e[1], e[2]);
    } else if 0x1_0000 <= c {
      assert b[1..4] == [e[1], e[2], e[3]];
      Join3(c / 0x40 / 0x40 / 0x40, e[1], e[2], e[3]);
    }
  }

  /** Every encodable string survives the wire. */
  lemma {:induction false} DecodeEncode(t: Text)
    requires Encodable(t)
    ensures Decode(Encode(t)) == Some(t)
  {
    if t != [] {
      var b := EncodeOne(t[0]) + Encode(t[1..]);
      DecodeOneInverts(t[0], Encode(t[1..]));
      DecodeEncode(t[1..]);
      assert b[|EncodeOne(t[0])|..] == Encode(t[1..]);
      assert t == [t[0]] + t[1..];
    }
  }

  /** Two base-64 digits and their sum determine each other. */
  lemma DigitOf(c: int, q: int, r: int)
    requires c == q * 0x40 + r && 0 <= r < 0x40
    ensures c / 0x40 == q && c % 0x40 == r
  {
  }

  lemma TwoBytesInvert(b: Bytes)
    requires DecodeOne(b).Some? && DecodeOne(b).value.1 == 2
    ensures EncodeOne(DecodeOne(b).value.0) == [b[0], b[1]]
  {
    var c := DecodeOne(b).value.0;
    assert b[1..2] == [b[1]];
    Join1(b[0] as int - 0xC0, b[1]);
    DigitOf(c, b[0] as int - 0xC0, b[1] as int - 0x80);
  }

  lemma ThreeBytesInvert(b: Bytes)
    requires DecodeOne(b).Some? && DecodeOne(b).value.1 == 3
    ensures EncodeOne(DecodeOne(b).value.0) == [b[0], b[1], b[2]]
  {
    var c := DecodeOne(b).value.0;
    assert b[1..3] == [b[1], b[2]];
    Join2(b[0] as int - 0xE0, b[1], b[2]);
    var c1 := (b[0] as int - 0xE0) * 0x40 + (b[1] as int - 0x80);
    DigitOf(c, c1, b[2] as int - 0x80);
    DigitOf(c1, b[0] as int - 0xE0, b[1] as int - 0x80);
  }

  lemma FourBytesInvert(b: Bytes)
    requires DecodeOne(b).Some? && DecodeOne(b).value.1 == 4
    ensures EncodeOne(DecodeOne(b).value.0) == [b[0], b[1], b[2], b[3]]
  {
    var c := DecodeOne(b).value.0;
    assert b[1..4] == [b[1], b[2], b[3]];
    Join3(b[0] as int - 0xF0, b[1], b[2], b[3]);
    var c2 := (b[0] as int - 0xF0) * 0x40 + (b[1] as int - 0x80);
    var c1 := c2 * 0x40 + (b[2] as int - 0x80);
    DigitOf(c, c1, b[3] as int - 0x80);
    DigitOf(c1, c2, b[2] as int - 0x80);
    DigitOf(c2, b[0] as int - 0xF0, b[1] as int - 0x80);
  }

  lemma EncodeOneInverts(b: Bytes)
    requires DecodeOne(b).Some?
    ensures !IsSurrogate(DecodeOne(b).value.0)
    ensures EncodeOne(DecodeOne(b).value.0) == b[..DecodeOne(b).value.1]
  {
    var n := DecodeOne(b).value.1;
    if n == 2 {
      TwoBytesInvert(b);
    } else if n == 3 {
      ThreeBytesInvert(b);
    } else if n == 4 {
      FourBytesInvert(b);
    }
  }

  /** Decoding is strict: a byte string has a reading only if it is that reading's encoding. */
  lemma {:induction false} EncodeDecode(b: Bytes)
    requires Decode(b).Some?
    ensures Encodable(Decode(b).value)
    ensures Encode(Decode(b).value) == b
  {
    if b != [] {
      var (c, n) := DecodeOne(b).value;
      EncodeOneInverts(b);
      EncodeDecode(b[n..]);
      ConsTail(c, Decode(b[n..]).value);
      assert b == b[..n] + b[n..];
    }
  }
}
