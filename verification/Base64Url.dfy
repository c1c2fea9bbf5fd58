/** Canonical unpadded base64url (RFC 4648, section 5, with sections 3.2 and 3.5). */
module Base64Url {
  import opened Base

  const PAD: CodePoint := 61
  const INVALID_BASE64 := Format("invalid_base64url")
  const NON_CANONICAL_BASE64 := Format("non_canonical_base64url")

  type Sextet = n: int | 0 <= n < 64

  function Symbol(n: Sextet): (c: CodePoint)
    ensures c != PAD
  {
    if n < 26 then 65 + n
    else if n < 52 then 71 + n
    else if n < 62 then n - 4
    else if n == 62 then 45
    else 95
  }

  predicate InAlphabet(c: CodePoint) {
    65 <= c <= 90 || 97 <= c <= 122 || 48 <= c <= 57 || c == 45 || c == 95
  }

  function SextetOf(c: CodePoint): Sextet
    requires InAlphabet(c)
  {
    if 65 <= c <= 90 then c - 65
    else if 97 <= c <= 122 then c - 71
    else if 48 <= c <= 57 then c + 4
    else if c == 45 then 62
    else 63
  }

  predicate AllInAlphabet(s: Text) {
    forall i | 0 <= i < |s| :: InAlphabet(s[i])
  }

  lemma SymbolInverse(n: Sextet)
    ensures InAlphabet(Symbol(n)) && SextetOf(Symbol(n)) == n
  {
  }

  lemma SextetInverse(c: CodePoint)
    requires InAlphabet(c)
    ensures Symbol(SextetOf(c)) == c
  {
  }

  /** The alphabet of RFC 4648, section 5. */
  lemma SymbolSpelledOut(n: Sextet)
    ensures Symbol(n) ==
      if n < 26 then CAPITAL_LETTERS[n] else if n < 52 then SMALL_LETTERS[n - 26]
      else if n < 62 then DECIMAL_DIGITS[n - 52] else Lit("-_")[n - 62]
  {
    assert forall i | 0 <= i < 26 :: CAPITAL_LETTERS[i] == 65 + i;
    assert forall i | 0 <= i < 26 :: SMALL_LETTERS[i] == 97 + i;
    assert forall i | 0 <= i < 10 :: DECIMAL_DIGITS[i] == 48 + i;
  }

  /** Three bytes and their four sextets are the same 24 bits. */
  lemma GroupSpelledOut(x: Byte, y: Byte, z: Byte)
    ensures x * 0x1_0000 + y * 0x100 + z
         == Six0(x) * 0x4_0000 + Six1(x, y) * 0x1000 + Six2(y, z) * 0x40 + Six3(z)
  {
  }

  // The bit regrouping of section 4: three bytes are four sextets.

  function Six0(x: Byte): Sextet { x / 4 }
  function Six1(x: Byte, y: Byte): Sextet { x % 4 * 16 + y / 16 }
  function Six2(y: Byte, z: Byte): Sextet { y % 16 * 4 + z / 64 }
  function Six3(z: Byte): Sextet { z % 64 }
  function Eight0(a: Sextet, b: Sextet): Byte { a * 4 + b / 16 }
  function Eight1(b: Sextet, c: Sextet): Byte { b % 16 * 16 + c / 4 }
  function Eight2(c: Sextet, d: Sextet): Byte { c % 4 * 64 + d }

  lemma BytesInverse(x: Byte, y: Byte, z: Byte)
    ensures Eight0(Six0(x), Six1(x, y)) == x
    ensures Eight1(Six1(x, y), Six2(y, z)) == y
    ensures Eight2(Six2(y, z), Six3(z)) == z
  {
  }

  lemma SextetsInverse(a: Sextet, b: Sextet, c: Sextet, d: Sextet)
    ensures Six0(Eight0(a, b)) == a
    ensures Six1(Eight0(a, b), Eight1(b, c)) == b
    ensures Six2(Eight1(b, c), Eight2(c, d)) == c
    ensures Six3(Eight2(c, d)) == d
  {
  }

  /** The sextets of a byte string; a short last group is filled up with zero bits. */
  function Sextets(b: Bytes): (q: seq<Sextet>)
    ensures b != [] ==> |q| >= 2
  {
    if b == [] then []
    else if |b| == 1 then [Six0(b[0]), Six1(b[0], 0)]
    else if |b| == 2 then [Six0(b[0]), Six1(b[0], b[1]), Six2(b[1], 0)]
    else [Six0(b[0]), Six1(b[0], b[1]), Six2(b[1], b[2]), Six3(b[2])] + Sextets(b[3..])
  }

  /** The bytes of a sextet string; the bits a short last group leaves over are dropped. */
  function Octets(q: seq<Sextet>): Bytes {
    if |q| < 2 then []
    else if |q| == 2 then [Eight0(q[0], q[1])]
    else if |q| == 3 then [Eight0(q[0], q[1]), Eight1(q[1], q[2])]
    else [Eight0(q[0], q[1]), Eight1(q[1], q[2]), Eight2(q[2], q[3])] + Octets(q[4..])
  }

  function Symbols(q: seq<Sextet>): (s: Text)
    ensures |s| == |q| && forall i | 0 <= i < |q| :: s[i] == Symbol(q[i])
  {
    seq(|q|, i requires 0 <= i < |q| => Symbol(q[i]))
  }

  function SextetsOf(s: Text): (q: seq<Sextet>)
    requires AllInAlphabet(s)
    ensures |q| == |s| && forall i | 0 <= i < |s| :: q[i] == SextetOf(s[i])
  {
    seq(|s|, i requires 0 <= i < |s| => SextetOf(s[i]))
  }

  /** The `=` signs that fill a text of this length up to whole groups. */
  function Padding(n: nat): (p: Text)
    ensures (n + |p|) % 4 == 0 && |p| < 4
    ensures forall i | 0 <= i < |p| :: p[i] == PAD
  {
    seq((4 - n % 4) % 4, _ => PAD)
  }

  /** `base64.urlsafe_b64encode`. */
  function EncodePadded(b: Bytes): Text {
    Symbols(Sextets(b)) + Padding(|Sextets(b)|)
  }

  /** `.rstrip(b"=")`. */
  function StripPad(t: Text): (r: Text)
    ensures |r| <= |t|
  {
    if t != [] && t[|t| - 1] == PAD then StripPad(t[..|t| - 1]) else t
  }

  function Encode(b: Bytes): Text {
    StripPad(EncodePadded(b))
  }

  /** `base64.b64decode` with `validate=True`: whole groups, at most two signs of padding. */
  function DecodePadded(t: Text): Option<Bytes> {
    var body := StripPad(t);
    if |t| % 4 == 0 && |t| - |body| <= 2 && AllInAlphabet(body) then Some(Octets(SextetsOf(body))) else None
  }

  function Decode(s: Text): Result<Bytes> {
    var _ :- Need(s != [] && AllInAlphabet(s), INVALID_BASE64);
    var _ :- Need(|s| % 4 != 1, INVALID_BASE64);
    match DecodePadded(s + Padding(|s|))
    case None => Err(INVALID_BASE64)
    case Some(b) => if Encode(b) != s then Err(NON_CANONICAL_BASE64) else Ok(b)
  }

  lemma {:induction false} StripPadAll(a: Text, p: Text)
    requires forall i | 0 <= i < |p| :: p[i] == PAD
    requires a != [] ==> a[|a| - 1] != PAD
    ensures StripPad(a + p) == a
  {
    if p == [] {
      assert a + p == a;
    } else {
      StripPadAll(a, p[..|p| - 1]);
      assert (a + p)[..|a + p| - 1] == a + p[..|p| - 1];
    }
  }

  lemma EncodeIsSymbols(b: Bytes)
    ensures Encode(b) == Symbols(Sextets(b))
  {
    StripPadAll(Symbols(Sextets(b)), Padding(|Sextets(b)|));
  }

  lemma DecodeIsOctets(s: Text)
    requires AllInAlphabet(s) && |s| % 4 != 1
    ensures DecodePadded(s + Padding(|s|)) == Some(Octets(SextetsOf(s)))
  {
    assert s != [] ==> InAlphabet(s[|s| - 1]);
    StripPadAll(s, Padding(|s|));
  }

  lemma SymbolsInverse(q: seq<Sextet>)
    ensures AllInAlphabet(Symbols(q)) && SextetsOf(Symbols(q)) == q
  {
    forall i | 0 <= i < |q| ensures InAlphabet(Symbols(q)[i]) && SextetOf(Symbols(q)[i]) == q[i] {
      SymbolInverse(q[i]);
    }
  }

  lemma SextetsOfInverse(s: Text)
    requires AllInAlphabet(s)
    ensures Symbols(SextetsOf(s)) == s
  {
    forall i | 0 <= i < |s| ensures Symbols(SextetsOf(s))[i] == s[i] {
      SextetInverse(s[i]);
    }
  }

  lemma OctetsUnfold(a: Sextet, b: Sextet, c: Sextet, d: Sextet, tail: seq<Sextet>)
    ensures Octets([a, b, c, d] + tail) == [Eight0(a, b), Eight1(b, c), Eight2(c, d)] + Octets(tail)
  {
    DropAppend([a, b, c, d], 4, tail);
  }

  lemma SextetsUnfold(x: Byte, y: Byte, z: Byte, tail: Bytes)
    ensures Sextets([x, y, z] + tail) == [Six0(x), Six1(x, y), Six2(y, z), Six3(z)] + Sextets(tail)
  {
    DropAppend([x, y, z], 3, tail);
  }

  lemma OctetsGroup(x: Byte, y: Byte, z: Byte, tail: seq<Sextet>)
    ensures Octets([Six0(x), Six1(x, y), Six2(y, z), Six3(z)] + tail) == [x, y, z] + Octets(tail)
  {
    OctetsUnfold(Six0(x), Six1(x, y), Six2(y, z), Six3(z), tail);
    BytesInverse(x, y, z);
  }

  lemma SextetsGroup(a: Sextet, b: Sextet, c: Sextet, d: Sextet, tail: Bytes)
    ensures Sextets([Eight0(a, b), Eight1(b, c), Eight2(c, d)] + tail) == [a, b, c, d] + Sextets(tail)
  {
    SextetsUnfold(Eight0(a, b), Eight1(b, c), Eight2(c, d), tail);
    SextetsInverse(a, b, c, d);
  }

  lemma OctetsTwo(a: Sextet, b: Sextet)
    ensures Octets([a, b]) == [Eight0(a, b)]
  {
  }

  lemma OctetsThree(a: Sextet, b: Sextet, c: Sextet)
    ensures Octets([a, b, c]) == [Eight0(a, b), Eight1(b, c)]
  {
  }

  lemma OneByte(x: Byte)
    ensures Octets(Sextets([x])) == [x]
  {
    assert Sextets([x]) == [Six0(x), Six1(x, 0)];
    OctetsTwo(Six0(x), Six1(x, 0));
    BytesInverse(x, 0, 0);
  }

  lemma TwoBytes(x: Byte, y: Byte)
    ensures Octets(Sextets([x, y])) == [x, y]
  {
    assert Sextets([x, y]) == [Six0(x), Six1(x, y), Six2(y, 0)];
    OctetsThree(Six0(x), Six1(x, y), Six2(y, 0));
    BytesInverse(x, y, 0);
  }

  lemma ThreeBytes(x: Byte, y: Byte, z: Byte, tail: Bytes)
    requires Octets(Sextets(tail)) == tail
    ensures Octets(Sextets([x, y, z] + tail)) == [x, y, z] + tail
  {
    SextetsUnfold(x, y, z, tail);
    OctetsGroup(x, y, z, Sextets(tail));
  }

  lemma TakeApart<T>(s: seq<T>, n: nat)
    requires n <= |s|
    ensures s == s[..n] + s[n..]
    ensures n == 3 ==> s[..n] == [s[0], s[1], s[2]]
    ensures n == 4 ==> s[..n] == [s[0], s[1], s[2], s[3]]
  {
  }

  lemma {:induction false} OctetsInverse(b: Bytes)
    ensures Octets(Sextets(b)) == b
  {
    if |b| == 1 {
      OneByte(b[0]);
      assert b == [b[0]];
    } else if |b| == 2 {
      TwoBytes(b[0], b[1]);
      assert b == [b[0], b[1]];
    } else if |b| >= 3 {
      TakeApart(b, 3);
      OctetsInverse(b[3..]);
      ThreeBytes(b[0], b[1], b[2], b[3..]);
    }
  }

  lemma {:induction false} SextetsCount(b: Bytes)
    ensures |Sextets(b)| % 4 != 1
  {
    if |b| >= 3 {
      SextetsCount(b[3..]);
    }
  }

  /** The bits of the last sextet that no byte uses. */
  predicate TrailingBitsZero(q: seq<Sextet>) {
    && (|q| % 4 == 2 ==> q[|q| - 1] % 16 == 0)
    && (|q| % 4 == 3 ==> q[|q| - 1] % 4 == 0)
  }

  lemma TwoRestored(a: Sextet, b: Sextet)
    ensures Sextets(Octets([a, b])) == [a, b] <==> b % 16 == 0
  {
    OctetsTwo(a, b);
    assert Sextets([Eight0(a, b)]) == [Six0(Eight0(a, b)), Six1(Eight0(a, b), 0)];
    SextetsInverse(a, b, 0, 0);
    assert Six1(Eight0(a, b), 0) == b / 16 * 16;
  }

  lemma ThreeRestored(a: Sextet, b: Sextet, c: Sextet)
    ensures Sextets(Octets([a, b, c])) == [a, b, c] <==> c % 4 == 0
  {
    OctetsThree(a, b, c);
    var (x, y) := (Eight0(a, b), Eight1(b, c));
    assert Sextets([x, y]) == [Six0(x), Six1(x, y), Six2(y, 0)];
    SextetsInverse(a, b, c, 0);
    assert Six2(y, 0) == c / 4 * 4;
  }

  lemma SameTail(q: seq<Sextet>)
    requires |q| >= 4 && |q| % 4 != 1
    ensures |q[4..]| % 4 != 1
    ensures TrailingBitsZero(q) <==> TrailingBitsZero(q[4..])
  {
  }

  lemma {:induction false} SextetsRestored(q: seq<Sextet>)
    requires |q| % 4 != 1
    ensures Sextets(Octets(q)) == q <==> TrailingBitsZero(q)
  {
    if |q| == 2 {
      TwoRestored(q[0], q[1]);
      assert q == [q[0], q[1]];
    } else if |q| == 3 {
      ThreeRestored(q[0], q[1], q[2]);
      assert q == [q[0], q[1], q[2]];
    } else if |q| > 3 {
      TakeApart(q, 4);
      SextetsRestored(q[4..]);
      FullGroup(q[0], q[1], q[2], q[3], q[4..]);
      SameTail(q);
    }
  }

  /** A full group comes back as it was, so only the rest matters. */
  lemma FullGroup(a: Sextet, b: Sextet, c: Sextet, d: Sextet, tail: seq<Sextet>)
    ensures Sextets(Octets([a, b, c, d] + tail)) == [a, b, c, d] + tail <==> Sextets(Octets(tail)) == tail
  {
    OctetsUnfold(a, b, c, d, tail);
    SextetsGroup(a, b, c, d, Octets(tail));
    SplitAppend([a, b, c, d], Sextets(Octets(tail)));
    SplitAppend([a, b, c, d], tail);
  }

  // ----- what the codec promises -----

  /** Every non-empty byte string comes back from its text. */
  lemma DecodeEncode(b: Bytes)
    requires b != []
    ensures Decode(Encode(b)) == Ok(b)
  {
    EncodeIsSymbols(b);
    OctetsInverse(b);
    SextetsCount(b);
    SymbolsInverse(Sextets(b));
    DecodeIsOctets(Encode(b));
  }

  /** A text is accepted iff it is canonical, which can be read off its length and symbols. */
  lemma DecodeAcceptsCanonical(s: Text)
    ensures Decode(s).Ok? <==> s != [] && AllInAlphabet(s) && |s| % 4 != 1 && TrailingBitsZero(SextetsOf(s))
    ensures Decode(s).Ok? ==> Decode(s).value != [] && Encode(Decode(s).value) == s
  {
    if s != [] && AllInAlphabet(s) && |s| % 4 != 1 {
      var q := SextetsOf(s);
      DecodeIsOctets(s);
      SextetsRestored(q);
      SextetsOfInverse(s);
      EncodeIsSymbols(Octets(q));
      SymbolsInverse(Sextets(Octets(q)));
    }
  }

  /** No two texts decode to the same bytes. */
  lemma DecodeInjective(s: Text, t: Text)
    requires Decode(s).Ok? && Decode(s) == Decode(t)
    ensures s == t
  {
    DecodeAcceptsCanonical(s);
    DecodeAcceptsCanonical(t);
  }
}
