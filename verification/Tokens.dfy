/** `estimate_tokens`: white space is normalised, then characters are divided and rounded up. */
module Tokens {
  import opened Base

  const SPACE: CodePoint := 32

  /** The longest start of the text without white space. */
  function Word(t: Text): (w: Text)
    ensures |w| <= |t|
    ensures t != [] && !IsSpace(t[0]) ==> w != []
  {
    if t == [] || IsSpace(t[0]) then [] else [t[0]] + Word(t[1..])
  }

  /** `str.split()`: the words between stretches of white space. */
  function Split(t: Text): seq<Text>
    decreases |t|
  {
    var s := TrimLeft(t);
    if s == [] then []
    else
      TrimLeftEnd(t);
      [Word(s)] + Split(s[|Word(s)|..])
  }

  /** `" ".join(words)`. */
  function Join(words: seq<Text>): Text {
    if words == [] then []
    else if |words| == 1 then words[0]
    else words[0] + ([SPACE] + Join(words[1..]))
  }

  function Normalized(t: Text): Text {
    Join(Split(t))
  }

  function Ceiling(x: real): int {
    if x == x.Floor as real then x.Floor else x.Floor + 1
  }

  function MaxReal(a: real, b: real): real { if a >= b then a else b }

  function TokensFor(normalized: Text, charsPerToken: real): int {
    if normalized == [] then 0
    else
      var tokens := Ceiling(|normalized| as real / MaxReal(charsPerToken, 1.0));
      if tokens >= 1 then tokens else 1
  }

  function EstimateTokens(text: Text, charsPerToken: real): int {
    if text == [] then 0 else TokensFor(Normalized(text), charsPerToken)
  }

  // ----- normalising twice, and padding -----

  predicate IsWord(w: Text) {
    w != [] && forall i | 0 <= i < |w| :: !IsSpace(w[i])
  }

  lemma {:induction false} WordIsPlain(t: Text)
    ensures forall i | 0 <= i < |Word(t)| :: !IsSpace(Word(t)[i])
    ensures |Word(t)| < |t| ==> IsSpace(t[|Word(t)|])
    ensures t[..|Word(t)|] == Word(t)
  {
    if t != [] && !IsSpace(t[0]) {
      WordIsPlain(t[1..]);
      assert t[..|Word(t)|] == [t[0]] + t[1..][..|Word(t[1..])|];
    }
  }

  lemma {:induction false} WordBefore(w: Text, rest: Text)
    requires forall i | 0 <= i < |w| :: !IsSpace(w[i])
    requires rest == [] || IsSpace(rest[0])
    ensures Word(w + rest) == w
  {
    if w == [] {
      assert w + rest == rest;
    } else {
      DropAppend(w, 1, rest);
      WordBefore(w[1..], rest);
      assert w == [w[0]] + w[1..];
    }
  }

  ghost predicate AllWords(words: seq<Text>) {
    forall i | 0 <= i < |words| :: IsWord(words[i])
  }

  lemma ConsWord(w: Text, words: seq<Text>)
    requires IsWord(w) && AllWords(words)
    ensures AllWords([w] + words)
  {
  }

  lemma {:induction false} SplitWords(t: Text)
    ensures AllWords(Split(t))
    decreases |t|
  {
    var s := TrimLeft(t);
    if s != [] {
      TrimLeftEnd(t);
      WordIsPlain(s);
      SplitWords(s[|Word(s)|..]);
      ConsWord(Word(s), Split(s[|Word(s)|..]));
    }
  }

  lemma SplitPadded(pad: Text, t: Text)
    requires AllSpace(pad)
    ensures Split(pad + t) == Split(t)
  {
    TrimPadding(pad, t);
  }

  /** A word followed by nothing or white space is split off whole. */
  lemma SplitFirst(w: Text, rest: Text)
    requires IsWord(w) && (rest == [] || IsSpace(rest[0]))
    ensures Split(w + rest) == [w] + Split(rest)
  {
    WordBefore(w, rest);
    SplitAppend(w, rest);
    assert TrimLeft(w + rest) == w + rest;
  }

  lemma HeadTail<T>(s: seq<T>)
    requires s != []
    ensures s == [s[0]] + s[1..]
  {
  }

  lemma PrependWord(w: Text, text: Text)
    requires IsWord(w)
    ensures Split(w + ([SPACE] + text)) == [w] + Split(text)
  {
    ConsTail(SPACE, text);
    SplitFirst(w, [SPACE] + text);
    SplitPadded([SPACE], text);
  }

  lemma OneWord(w: Text)
    requires IsWord(w)
    ensures Split(w) == [w]
  {
    SplitFirst(w, []);
    assert w + [] == w;
  }

  /** Splitting a join gives the words back. */
  lemma {:induction false} SplitJoin(words: seq<Text>)
    requires AllWords(words)
    ensures Split(Join(words)) == words
  {
    if |words| == 1 {
      OneWord(words[0]);
      assert words == [words[0]];
    } else if |words| > 1 {
      SplitJoin(words[1..]);
      PrependWord(words[0], Join(words[1..]));
      HeadTail(words);
    }
  }

  lemma SplitBlank(pad: Text)
    requires AllSpace(pad)
    ensures Split(pad) == []
  {
    SplitPadded(pad, []);
    assert pad + [] == pad;
  }

  lemma PadAfterWord(w: Text, rest: Text, pad: Text)
    requires IsWord(w) && (rest == [] || IsSpace(rest[0])) && AllSpace(pad)
    requires Split(rest + pad) == Split(rest)
    ensures Split(w + (rest + pad)) == Split(w + rest)
  {
    SplitFirst(w, rest);
    SplitFirst(w, rest + pad);
  }

  lemma Regroup<T>(s: seq<T>, n: nat, pad: seq<T>)
    requires n <= |s|
    ensures s == s[..n] + s[n..] && s + pad == s[..n] + (s[n..] + pad)
  {
  }

  lemma {:induction false} SplitTrailing(t: Text, pad: Text)
    requires AllSpace(pad)
    ensures Split(t + pad) == Split(t)
    decreases |t|
  {
    if t == [] {
      assert t + pad == pad;
      SplitBlank(pad);
    } else if IsSpace(t[0]) {
      SplitTrailing(t[1..], pad);
      Regroup(t, 1, pad);
      SplitPadded(t[..1], t[1..]);
      SplitPadded(t[..1], t[1..] + pad);
    } else {
      var n := |Word(t)|;
      SplitTrailing(t[n..], pad);
      WordIsPlain(t);
      Regroup(t, n, pad);
      PadAfterWord(t[..n], t[n..], pad);
    }
  }

  lemma EstimateOfNormalized(t: Text, c: real)
    ensures EstimateTokens(t, c) == TokensFor(Normalized(t), c)
  {
  }

  lemma EstimateOfWords(a: Text, b: Text, c: real)
    requires Split(a) == Split(b)
    ensures EstimateTokens(a, c) == EstimateTokens(b, c)
  {
    EstimateOfNormalized(a, c);
    EstimateOfNormalized(b, c);
  }

  /** Only the words count: normalising first, or padding either end, changes no estimate. */
  lemma WhiteSpaceIsInvisible(t: Text, before: Text, after: Text, c: real)
    requires AllSpace(before) && AllSpace(after)
    ensures EstimateTokens(Normalized(t), c) == EstimateTokens(t, c)
    ensures EstimateTokens(before + (t + after), c) == EstimateTokens(t, c)
  {
    SplitWords(t);
    SplitJoin(Split(t));
    EstimateOfWords(Normalized(t), t, c);
    SplitPadded(before, t + after);
    SplitTrailing(t, after);
    EstimateOfWords(before + (t + after), t, c);
  }

  // ----- the length of the normalised text, and concatenation -----

  function Solid(t: Text): nat {
    if t == [] then 0 else (if IsSpace(t[0]) then 0 else 1) + Solid(t[1..])
  }

  /** How many words start in the text, given whether white space stands before it. */
  function Starts(t: Text, afterSpace: bool): nat {
    if t == [] then 0
    else (if afterSpace && !IsSpace(t[0]) then 1 else 0) + Starts(t[1..], IsSpace(t[0]))
  }

  function Total(words: seq<Text>): nat {
    if words == [] then 0 else |words[0]| + Total(words[1..])
  }

  lemma {:induction false} JoinLength(words: seq<Text>)
    ensures |Join(words)| == Total(words) + if words == [] then 0 else |words| - 1
  {
    if |words| == 1 {
      assert Total(words[1..]) == 0;
    } else if |words| > 1 {
      JoinLength(words[1..]);
    }
  }

  lemma {:induction false} CountWord(s: Text)
    ensures Solid(s) == |Word(s)| + Solid(s[|Word(s)|..])
    ensures Starts(s, false) == Starts(s[|Word(s)|..], true)
  {
    if s != [] && !IsSpace(s[0]) {
      CountWord(s[1..]);
      assert s[|Word(s)|..] == s[1..][|Word(s[1..])|..];
    } else {
      assert s[|Word(s)|..] == s;
    }
  }

  lemma {:induction false} CountLead(t: Text)
    ensures Solid(TrimLeft(t)) == Solid(t) && Starts(TrimLeft(t), true) == Starts(t, true)
  {
    if t != [] && IsSpace(t[0]) {
      CountLead(t[1..]);
    }
  }

  lemma StartAtWord(s: Text)
    requires s != [] && !IsSpace(s[0])
    ensures Starts(s, true) == 1 + Starts(s, false)
  {
  }

  lemma {:induction false} CountSplit(t: Text)
    ensures Total(Split(t)) == Solid(t) && |Split(t)| == Starts(t, true)
    decreases |t|
  {
    CountLead(t);
    var s := TrimLeft(t);
    if s != [] {
      TrimLeftEnd(t);
      CountWord(s);
      StartAtWord(s);
      CountSplit(s[|Word(s)|..]);
      ConsTail(Word(s), Split(s[|Word(s)|..]));
    }
  }

  /** The length of the normalised text: the characters of its words and the gaps between them. */
  function NormalLength(t: Text): nat {
    Solid(t) + if Starts(t, true) == 0 then 0 else Starts(t, true) - 1
  }

  lemma NormalizedLength(t: Text)
    ensures |Normalized(t)| == NormalLength(t)
  {
    CountSplit(t);
    JoinLength(Split(t));
  }

  lemma {:induction false} CountConcat(a: Text, b: Text, afterSpace: bool)
    ensures Solid(a + b) == Solid(a) + Solid(b)
    ensures Starts(a + b, afterSpace)
         == Starts(a, afterSpace) + Starts(b, if a == [] then afterSpace else IsSpace(a[|a| - 1]))
  {
    if a == [] {
      assert a + b == b;
    } else {
      DropAppend(a, 1, b);
      CountConcat(a[1..], b, IsSpace(a[0]));
    }
  }

  lemma {:induction false} SolidStarts(t: Text, afterSpace: bool)
    ensures Starts(t, afterSpace) <= Solid(t)
    ensures afterSpace && Starts(t, afterSpace) == 0 ==> Solid(t) == 0
    ensures Starts(t, false) <= Starts(t, true) <= Starts(t, false) + 1
    ensures Starts(t, true) > Starts(t, false) ==> t != [] && !IsSpace(t[0])
  {
    if t != [] {
      SolidStarts(t[1..], IsSpace(t[0]));
    }
  }

  lemma {:induction false} EndsSolid(t: Text)
    requires t != [] && !IsSpace(t[|t| - 1])
    ensures Solid(t) > 0
  {
    if |t| > 1 {
      EndsSolid(t[1..]);
    }
  }

  /** Concatenation adds the lengths, and one more for the gap unless a word merges at the seam or
      one side is blank. */
  lemma ConcatLength(a: Text, b: Text)
    ensures NormalLength(a) + NormalLength(b) <= NormalLength(a + b) <= NormalLength(a) + NormalLength(b) + 1
    ensures NormalLength(a) == 0 ==> NormalLength(a + b) == NormalLength(b)
    ensures NormalLength(b) == 0 ==> NormalLength(a + b) == NormalLength(a)
  {
    CountConcat(a, b, true);
    SolidStarts(a, true);
    SolidStarts(b, true);
    SolidStarts(b, false);
    if a != [] && !IsSpace(a[|a| - 1]) {
      EndsSolid(a);
    }
  }

  function Rounded(n: nat, c: real): int
    requires c >= 1.0
  {
    Ceiling(n as real / c)
  }

  /** Rounding up is the least integer that is not below. */
  lemma CeilingBounds(x: real)
    ensures x <= Ceiling(x) as real < x + 1.0
  {
  }

  lemma DivideSum(m: real, n: real, c: real)
    requires c >= 1.0
    ensures (m + n) / c == m / c + n / c
  {
  }

  lemma DivideAtMost(n: real, c: real)
    requires c >= 1.0 && 0.0 <= n
    ensures 0.0 <= n / c <= n
  {
  }

  lemma RoundedMonotone(m: nat, n: nat, c: real)
    requires c >= 1.0 && m <= n
    ensures Rounded(m, c) <= Rounded(n, c)
  {
    DivideSum(m as real, (n - m) as real, c);
    DivideAtMost((n - m) as real, c);
    CeilingBounds(m as real / c);
    CeilingBounds(n as real / c);
  }

  lemma RoundedSum(m: nat, n: nat, k: nat, c: real)
    requires c >= 1.0 && m + n <= k <= m + n + 1
    ensures Rounded(m, c) + Rounded(n, c) - 1 <= Rounded(k, c) <= Rounded(m, c) + Rounded(n, c) + 1
  {
    DivideSum(m as real, n as real, c);
    DivideSum(m as real + n as real, (k - m - n) as real, c);
    DivideAtMost((k - m - n) as real, c);
    CeilingBounds(m as real / c);
    CeilingBounds(n as real / c);
    CeilingBounds(k as real / c);
  }

  lemma EstimateIsRounded(t: Text, charsPerToken: real)
    ensures EstimateTokens(t, charsPerToken) == Rounded(NormalLength(t), MaxReal(charsPerToken, 1.0))
  {
    var c := MaxReal(charsPerToken, 1.0);
    NormalizedLength(t);
    EstimateOfNormalized(t, charsPerToken);
    CeilingBounds(NormalLength(t) as real / c);
    PositiveQuotient(NormalLength(t), c);
  }

  lemma PositiveQuotient(n: nat, c: real)
    requires c >= 1.0
    ensures n as real / c > 0.0 <==> n > 0
    ensures n == 0 ==> n as real / c == 0.0
  {
  }

  /** The estimate is the least number of tokens, and at least one, that holds the normalised text at
      this many characters a token, but no fewer than one. */
  lemma EstimateSpelledOut(t: Text, charsPerToken: real)
    ensures var n, e := |Normalized(t)|, EstimateTokens(t, charsPerToken);
      var c := if charsPerToken < 1.0 then 1.0 else charsPerToken;
      && (n == 0 ==> e == 0)
      && (n > 0 ==> e >= 1 && (e - 1) as real * c < n as real <= e as real * c)
  {
    var n := |Normalized(t)|;
    var c := if charsPerToken < 1.0 then 1.0 else charsPerToken;
    EstimateOfNormalized(t, charsPerToken);
    if n > 0 {
      LeastMultiple(n, c);
    }
  }

  lemma LeastMultiple(n: nat, c: real)
    requires c >= 1.0 && n > 0
    ensures var e := Ceiling(n as real / c); e >= 1 && (e - 1) as real * c < n as real <= e as real * c
  {
    CeilingBounds(n as real / c);
    PositiveQuotient(n, c);
    Multiplied(n as real, n as real / c, (Ceiling(n as real / c) - 1) as real, Ceiling(n as real / c) as real, c);
  }

  /** Bounds on a quotient are bounds on its dividend. */
  lemma Multiplied(n: real, x: real, low: real, high: real, c: real)
    requires c >= 1.0 && x == n / c && low < x <= high
    ensures low * c < n <= high * c
  {
    assert x * c == n;
    Scale(x, high, c);
    ScaleStrictly(low, x, c);
  }

  lemma Scale(a: real, b: real, c: real)
    requires a <= b && c >= 1.0
    ensures a * c <= b * c
  {
  }

  lemma ScaleStrictly(a: real, b: real, c: real)
    requires a < b && c >= 1.0
    ensures a * c < b * c
  {
  }

  /** Budgets add up: joining two texts never lowers either estimate, and it moves their sum by at
      most one in either direction, words merging at the seam included. */
  lemma EstimateOfConcat(a: Text, b: Text, c: real)
    ensures EstimateTokens(a, c) <= EstimateTokens(a + b, c) && EstimateTokens(b, c) <= EstimateTokens(a + b, c)
    ensures EstimateTokens(a, c) + EstimateTokens(b, c) - 1 <= EstimateTokens(a + b, c)
    ensures EstimateTokens(a + b, c) <= EstimateTokens(a, c) + EstimateTokens(b, c) + 1
  {
    var d := MaxReal(c, 1.0);
    EstimateIsRounded(a, c);
    EstimateIsRounded(b, c);
    EstimateIsRounded(a + b, c);
    ConcatLength(a, b);
    RoundedMonotone(NormalLength(a), NormalLength(a + b), d);
    RoundedMonotone(NormalLength(b), NormalLength(a + b), d);
    RoundedSum(NormalLength(a), NormalLength(b), NormalLength(a + b), d);
  }
}
