/** The grammar of JSON texts (RFC 8259, sections 2 to 7), apart from any reader: every spelling of a
    string, a number or a value, with all its escapes and blanks. The reader accepts exactly these. */
module JsonGrammar {
  import opened Base
  import opened Json
  import opened JsonPrint
  import opened JsonParse
  import Utf8

  // ----- strings -----

  predicate SpellsDigit(c: CodePoint, v: int) {
    0 <= v < 16 && (c == LOWER_HEX[v] || c == UPPER_HEX[v])
  }

  /** Four hexadecimal digits of either case. */
  predicate SpellsHex(s: Text, n: int) {
    && |s| == 4 && 0 <= n < 0x1_0000
    && SpellsDigit(s[0], n / 0x10 / 0x10 / 0x10) && SpellsDigit(s[1], n / 0x10 / 0x10 % 0x10)
    && SpellsDigit(s[2], n / 0x10 % 0x10) && SpellsDigit(s[3], n % 0x10)
  }

  predicate SpellsRaw(s: Text, c: CodePoint) {
    s == [c] && c >= 0x20 && c != QUOTE && c != BACKSLASH
  }

  /** The two-character escapes. */
  const SHORT_ESCAPES: seq<(CodePoint, CodePoint)> :=
    [(34, 34), (92, 92), (47, 47), (98, 8), (102, 12), (110, 10), (114, 13), (116, 9)]

  predicate SpellsShort(s: Text, c: CodePoint) {
    |s| == 2 && s[0] == BACKSLASH && (s[1], c) in SHORT_ESCAPES
  }

  predicate SpellsEscape(s: Text, n: int) {
    |s| == 6 && s[0] == BACKSLASH && s[1] == LETTER_U && SpellsHex(s[2..6], n)
  }

  /** Two escapes, one after the other. */
  predicate SpellsTwo(s: Text, high: int, low: int) {
    && |s| == 12
    && s[0] == BACKSLASH && s[1] == LETTER_U && SpellsHex(s[2..6], high)
    && s[6] == BACKSLASH && s[7] == LETTER_U && SpellsHex(s[8..12], low)
  }

  /** The high and the low half of a UTF-16 pair: ten bits each of the distance from the basic plane. */
  predicate IsPairOf(c: CodePoint, high: int, low: int) {
    && 0xD800 <= high < 0xDC00 && 0xDC00 <= low < 0xE000
    && c == 0x1_0000 + (high - 0xD800) * 0x400 + (low - 0xDC00)
  }

  /** A character beyond the basic plane as its UTF-16 pair. */
  ghost predicate SpellsPair(s: Text, c: CodePoint) {
    exists high, low :: IsPairOf(c, high, low) && SpellsTwo(s, high, low)
  }

  ghost predicate SpellsChar(s: Text, c: CodePoint) {
    SpellsRaw(s, c) || SpellsShort(s, c) || SpellsEscape(s, c) || SpellsPair(s, c)
  }

  ghost predicate SpellsText(parts: seq<Text>, t: Text) {
    |parts| == |t| && forall i | 0 <= i < |t| :: SpellsChar(parts[i], t[i])
  }

  function Concat(parts: seq<Text>, rest: Text): Text {
    if parts == [] then rest else parts[0] + Concat(parts[1..], rest)
  }

  lemma DigitIsRead(c: CodePoint, v: int)
    ensures SpellsDigit(c, v) <==> v >= 0 && HexValue(c) == Some(v)
  {
    assert forall i | 0 <= i < 10 :: LOWER_HEX[i] == 48 + i == UPPER_HEX[i];
    assert forall i | 10 <= i < 16 :: LOWER_HEX[i] == 87 + i && UPPER_HEX[i] == 55 + i;
  }

  lemma LastDigit(n: int, q: int, r: int)
    requires n == q * 0x10 + r && 0 <= r < 0x10
    ensures n / 0x10 == q && n % 0x10 == r
  {
  }

  /** Four digits and their number determine each other. */
  lemma DigitsOf(n: int, a: int, b: int, c: int, d: int)
    requires 0 <= a < 16 && 0 <= b < 16 && 0 <= c < 16 && 0 <= d < 16
    requires n == a * 0x1000 + b * 0x100 + c * 0x10 + d
    ensures n / 0x10 / 0x10 / 0x10 == a && n / 0x10 / 0x10 % 0x10 == b && n / 0x10 % 0x10 == c && n % 0x10 == d
  {
    LastDigit(n, a * 0x100 + b * 0x10 + c, d);
    LastDigit(a * 0x100 + b * 0x10 + c, a * 0x10 + b, c);
    LastDigit(a * 0x10 + b, a, b);
  }

  lemma NumberOf(n: int)
    requires 0 <= n < 0x1_0000
    ensures n == n / 0x10 / 0x10 / 0x10 * 0x1000 + n / 0x10 / 0x10 % 0x10 * 0x100 + n / 0x10 % 0x10 * 0x10 + n % 0x10
    ensures n / 0x10 / 0x10 / 0x10 < 0x10
  {
    var x, y := n / 0x10, n / 0x10 / 0x10;
    assert n == x * 0x10 + n % 0x10 && x == y * 0x10 + x % 0x10 && y == y / 0x10 * 0x10 + y % 0x10;
  }

  lemma HexIsRead(s: Text, n: int)
    requires SpellsHex(s, n)
    ensures Hex4(s) == Some(n)
  {
    DigitIsRead(s[0], n / 0x10 / 0x10 / 0x10);
    DigitIsRead(s[1], n / 0x10 / 0x10 % 0x10);
    DigitIsRead(s[2], n / 0x10 % 0x10);
    DigitIsRead(s[3], n % 0x10);
    NumberOf(n);
  }

  lemma HexWasSpelled(s: Text)
    requires Hex4(s).Some?
    ensures SpellsHex(s[..4], Hex4(s).value)
  {
    var (a, b, c, d) := (HexValue(s[0]).value, HexValue(s[1]).value, HexValue(s[2]).value, HexValue(s[3]).value);
    DigitsOf(Hex4(s).value, a, b, c, d);
    DigitIsRead(s[0], a);
    DigitIsRead(s[1], b);
    DigitIsRead(s[2], c);
    DigitIsRead(s[3], d);
  }

  lemma HexPrefix(s: Text)
    requires |s| >= 4
    ensures Hex4(s) == Hex4(s[..4])
  {
  }

  /** Every character beyond the basic plane has exactly one pair. */
  lemma PairExists(c: CodePoint, high: int, low: int)
    ensures IsPairOf(c, high, low) <==>
      c >= 0x1_0000 && high == 0xD800 + (c - 0x1_0000) / 0x400 && low == 0xDC00 + (c - 0x1_0000) % 0x400
  {
  }

  // Completeness: every spelling of a character is read as that character.

  lemma RawIsRead(s: Text, c: CodePoint, tail: Text)
    requires SpellsRaw(s, c) && ParseString(tail).Ok?
    ensures ParseString(s + tail) == Ok(([c] + ParseString(tail).value.0, ParseString(tail).value.1))
  {
    ConsTail(c, tail);
  }

  lemma EscapedIsRead(s: Text, c: CodePoint, tail: Text)
    requires s != [] && s[0] == BACKSLASH && ParseEscape(s[1..] + tail) == Ok((c, tail)) && ParseString(tail).Ok?
    ensures ParseString(s + tail) == Ok(([c] + ParseString(tail).value.0, ParseString(tail).value.1))
  {
    DropAppend(s, 1, tail);
  }

  lemma ShortIsRead(s: Text, c: CodePoint, tail: Text)
    requires SpellsShort(s, c)
    ensures ParseEscape(s[1..] + tail) == Ok((c, tail))
  {
    assert s[1..] == [s[1]];
    ConsTail(s[1], tail);
  }

  lemma UnicodeStart(s: Text, tail: Text)
    requires |s| >= 6 && s[1] == LETTER_U
    ensures ParseEscape(s[1..] + tail) == ParseUnicodeEscape(s[2..] + tail)
  {
    assert (s[1..] + tail)[1..] == s[2..] + tail;
  }

  lemma HexAtStart(u: Text, digits: Text, n: int)
    requires |u| >= 4 && u[..4] == digits && SpellsHex(digits, n)
    ensures Hex4(u) == Some(n)
  {
    HexIsRead(digits, n);
    HexPrefix(u);
  }

  lemma LoneIsRead(s: Text, n: int, tail: Text)
    requires SpellsEscape(s, n) && !(0xD800 <= n < 0xDC00)
    ensures ParseUnicodeEscape(s[2..] + tail) == Ok((n, tail))
  {
    var u := s[2..] + tail;
    assert u[..4] == s[2..6] && u[4..] == tail;
    HexAtStart(u, s[2..6], n);
  }

  lemma PairParts(s: Text, tail: Text)
    requires |s| == 12
    ensures var u := s[2..] + tail;
      && |u| >= 10 && u[..4] == s[2..6] && u[6..][..4] == s[8..12]
      && u[4] == s[6] && u[5] == s[7] && u[10..] == tail
  {
  }

  /** An escape of a high half with one of a low half behind it. */
  lemma HalvesAreRead(u: Text, high: int, low: int)
    requires |u| >= 10 && Hex4(u) == Some(high) && Hex4(u[6..]) == Some(low)
    requires 0xD800 <= high < 0xDC00 && 0xDC00 <= low < 0xE000 && u[4] == BACKSLASH && u[5] == LETTER_U
    ensures ParseUnicodeEscape(u) == Ok((0x1_0000 + (high - 0xD800) * 0x400 + (low - 0xDC00), u[10..]))
  {
  }

  lemma TwoAreRead(s: Text, c: CodePoint, high: int, low: int, tail: Text)
    requires SpellsTwo(s, high, low) && IsPairOf(c, high, low)
    ensures |s| == 12 && s[0] == BACKSLASH && s[1] == LETTER_U
    ensures ParseUnicodeEscape(s[2..] + tail) == Ok((c, tail))
  {
    var u := s[2..] + tail;
    PairParts(s, tail);
    HexAtStart(u, s[2..6], high);
    HexAtStart(u[6..], s[8..12], low);
    HalvesAreRead(u, high, low);
  }

  lemma PairIsRead(s: Text, c: CodePoint, tail: Text)
    requires SpellsPair(s, c)
    ensures |s| == 12 && s[0] == BACKSLASH && s[1] == LETTER_U
    ensures ParseUnicodeEscape(s[2..] + tail) == Ok((c, tail))
  {
    var high, low :| IsPairOf(c, high, low) && SpellsTwo(s, high, low);
    TwoAreRead(s, c, high, low, tail);
  }

  lemma CharIsRead(s: Text, c: CodePoint, tail: Text)
    requires SpellsChar(s, c) && !Utf8.IsSurrogate(c) && ParseString(tail).Ok?
    ensures ParseString(s + tail) == Ok(([c] + ParseString(tail).value.0, ParseString(tail).value.1))
  {
    if SpellsRaw(s, c) {
      RawIsRead(s, c, tail);
    } else {
      if SpellsShort(s, c) {
        ShortIsRead(s, c, tail);
      } else if SpellsEscape(s, c) {
        UnicodeStart(s, tail);
        LoneIsRead(s, c, tail);
      } else {
        PairIsRead(s, c, tail);
        UnicodeStart(s, tail);
      }
      EscapedIsRead(s, c, tail);
    }
  }

  /** Every spelling of a text, each character raw or escaped in any way, is read as that text. */
  lemma {:induction false} SpelledTextIsRead(parts: seq<Text>, t: Text, rest: Text)
    requires SpellsText(parts, t) && Utf8.Encodable(t)
    ensures ParseString(Concat(parts, [QUOTE] + rest)) == Ok((t, rest))
  {
    if t == [] {
      ConsTail(QUOTE, rest);
    } else {
      SpelledTextIsRead(parts[1..], t[1..], rest);
      CharIsRead(parts[0], t[0], Concat(parts[1..], [QUOTE] + rest));
      assert t == [t[0]] + t[1..];
    }
  }

  // Soundness: whatever is read was spelled so.

  lemma ShortWasSpelled(x: CodePoint, c: CodePoint, i: nat)
    requires i < 8 && SHORT_ESCAPES[i] == (x, c)
    ensures SpellsChar([BACKSLASH, x], c)
  {
    assert SHORT_ESCAPES[i] in SHORT_ESCAPES;
  }

  lemma ShortIndex(s: Text) returns (i: nat)
    requires ParseEscape(s).Ok? && s[0] != LETTER_U
    ensures i < 8 && SHORT_ESCAPES[i] == (s[0], ParseEscape(s).value.0) && ParseEscape(s).value.1 == s[1..]
  {
    i := if s[0] == 34 then 0 else if s[0] == 92 then 1 else if s[0] == 47 then 2 else if s[0] == 98 then 3
         else if s[0] == 102 then 4 else if s[0] == 110 then 5 else if s[0] == 114 then 6 else 7;
  }

  lemma EscapeWasSpelled(s: Text) returns (part: Text)
    requires ParseEscape(s).Ok?
    ensures SpellsChar(part, ParseEscape(s).value.0)
    ensures [BACKSLASH] + s == part + ParseEscape(s).value.1
  {
    if s[0] == LETTER_U {
      part := UnicodeWasSpelled(s[1..]);
      assert [BACKSLASH] + s == [BACKSLASH, LETTER_U] + s[1..];
    } else {
      var i := ShortIndex(s);
      part := [BACKSLASH, s[0]];
      ShortWasSpelled(s[0], ParseEscape(s).value.0, i);
    }
  }

  lemma UnicodeWasSpelled(s: Text) returns (part: Text)
    requires ParseUnicodeEscape(s).Ok?
    ensures SpellsChar(part, ParseUnicodeEscape(s).value.0)
    ensures [BACKSLASH, LETTER_U] + s == part + ParseUnicodeEscape(s).value.1
  {
    if |ParseUnicodeEscape(s).value.1| == |s| - 4 {
      part := LoneWasSpelled(s);
    } else {
      part := PairWasSpelled(s);
    }
  }

  lemma LoneWasSpelled(s: Text) returns (part: Text)
    requires ParseUnicodeEscape(s).Ok? && |ParseUnicodeEscape(s).value.1| == |s| - 4
    ensures SpellsEscape(part, ParseUnicodeEscape(s).value.0)
    ensures [BACKSLASH, LETTER_U] + s == part + ParseUnicodeEscape(s).value.1
  {
    LoneWasRead(s);
    HexWasSpelled(s);
    LoneSpelling(s);
    part := [BACKSLASH, LETTER_U] + s[..4];
  }

  lemma LoneSpelling(s: Text)
    requires |s| >= 4
    ensures var part := [BACKSLASH, LETTER_U] + s[..4];
      && |part| == 6 && part[0] == BACKSLASH && part[1] == LETTER_U && part[2..6] == s[..4]
      && [BACKSLASH, LETTER_U] + s == part + s[4..]
  {
    assert s == s[..4] + s[4..];
  }

  lemma LoneWasRead(s: Text)
    requires ParseUnicodeEscape(s).Ok? && |ParseUnicodeEscape(s).value.1| == |s| - 4
    ensures Hex4(s) == Some(ParseUnicodeEscape(s).value.0) && ParseUnicodeEscape(s).value.1 == s[4..]
  {
  }

  lemma PairSpelling(s: Text)
    requires |s| >= 10
    ensures var part := [BACKSLASH, LETTER_U] + s[..10];
      && |part| == 12 && part[2..6] == s[..4] && part[8..12] == s[6..][..4]
      && part[6] == s[4] && part[7] == s[5]
      && [BACKSLASH, LETTER_U] + s == part + s[10..]
  {
    var part := [BACKSLASH, LETTER_U] + s[..10];
    assert part[2..6] == s[..4];
    assert part[8..12] == s[6..10] && s[6..][..4] == s[6..10];
    assert s == s[..10] + s[10..];
  }

  /** Only a pair of halves takes more than four digits. */
  lemma HalvesWereRead(s: Text)
    requires ParseUnicodeEscape(s).Ok? && |ParseUnicodeEscape(s).value.1| != |s| - 4
    ensures |s| >= 10 && s[4] == BACKSLASH && s[5] == LETTER_U && Hex4(s).Some? && Hex4(s[6..]).Some?
    ensures 0xD800 <= Hex4(s).value < 0xDC00 && 0xDC00 <= Hex4(s[6..]).value < 0xE000
    ensures ParseUnicodeEscape(s).value
         == (0x1_0000 + (Hex4(s).value - 0xD800) * 0x400 + (Hex4(s[6..]).value - 0xDC00), s[10..])
  {
  }

  lemma TwoWereSpelled(s: Text)
    requires |s| >= 10 && s[4] == BACKSLASH && s[5] == LETTER_U && Hex4(s).Some? && Hex4(s[6..]).Some?
    ensures SpellsTwo([BACKSLASH, LETTER_U] + s[..10], Hex4(s).value, Hex4(s[6..]).value)
  {
    HexWasSpelled(s);
    HexWasSpelled(s[6..]);
    PairSpelling(s);
  }

  lemma PairWasSpelled(s: Text) returns (part: Text)
    requires ParseUnicodeEscape(s).Ok? && |ParseUnicodeEscape(s).value.1| != |s| - 4
    ensures SpellsPair(part, ParseUnicodeEscape(s).value.0)
    ensures [BACKSLASH, LETTER_U] + s == part + ParseUnicodeEscape(s).value.1
  {
    HalvesWereRead(s);
    TwoWereSpelled(s);
    PairSpelling(s);
    part := [BACKSLASH, LETTER_U] + s[..10];
    assert IsPairOf(ParseUnicodeEscape(s).value.0, Hex4(s).value, Hex4(s[6..]).value);
  }

  /** A text that was read was spelled, character by character, up to its closing quote. */
  lemma {:induction false} ReadTextWasSpelled(s: Text) returns (parts: seq<Text>)
    requires ParseString(s).Ok?
    ensures SpellsText(parts, ParseString(s).value.0)
    ensures s == Concat(parts, [QUOTE] + ParseString(s).value.1)
    decreases |s|
  {
    if s[0] == QUOTE {
      parts := [];
      assert s == [QUOTE] + s[1..];
    } else if s[0] == BACKSLASH {
      var (c, after) := ParseEscape(s[1..]).value;
      var part := EscapeWasSpelled(s[1..]);
      var more := ReadTextWasSpelled(after);
      parts := [part] + more;
      ConsParts(part, more, c, ParseString(after).value.0, [QUOTE] + ParseString(after).value.1);
      assert s == [BACKSLASH] + s[1..];
    } else {
      var more := ReadTextWasSpelled(s[1..]);
      parts := [[s[0]]] + more;
      ConsParts([s[0]], more, s[0], ParseString(s[1..]).value.0, [QUOTE] + ParseString(s[1..]).value.1);
      assert s == [s[0]] + s[1..];
    }
  }

  lemma ConsParts(part: Text, more: seq<Text>, c: CodePoint, t: Text, rest: Text)
    requires SpellsChar(part, c) && SpellsText(more, t)
    ensures SpellsText([part] + more, [c] + t)
    ensures Concat([part] + more, rest) == part + Concat(more, rest)
  {
    ConsTail(part, more);
    var parts, text := [part] + more, [c] + t;
    forall i | 0 <= i < |text| ensures SpellsChar(parts[i], text[i]) {
      if i > 0 {
        assert parts[i] == more[i - 1] && text[i] == t[i - 1];
      }
    }
  }
}
