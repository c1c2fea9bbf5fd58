/** Types and small text operations shared by every part of the model. */
module Base {

  type Byte = n: int | 0 <= n < 0x100
  type Bytes = seq<Byte>

  /** A Python string is a sequence of code points; lone surrogates are possible. */
  type CodePoint = n: int | 0 <= n < 0x11_0000
  type Text = seq<CodePoint>

  datatype Option<+T> = None | Some(value: T)

  /** The two exception classes a caller can tell apart, with their stable code. */
  datatype Error = Format(code: string) | Denied(code: string)

  datatype Result<+T> = Ok(value: T) | Err(error: Error) {
    predicate IsFailure() {
      Err?
    }

    function PropagateFailure<U>(): Result<U>
      requires Err?
    {
      Err(error)
    }

    function Extract(): T
      requires Ok?
    {
      value
    }
  }

  /** A raising check: passes when the condition holds. */
  function Need(condition: bool, error: Error): Result<()> {
    if condition then Ok(()) else Err(error)
  }

  lemma ConsTail<T>(c: T, t: seq<T>)
    ensures ([c] + t)[0] == c && ([c] + t)[1..] == t
  {
  }

  lemma DropAppend<T>(s: seq<T>, n: nat, rest: seq<T>)
    requires n <= |s|
    ensures (s + rest)[n..] == s[n..] + rest
  {
  }

  lemma SplitAppend<T>(s: seq<T>, rest: seq<T>)
    ensures (s + rest)[..|s|] == s && (s + rest)[|s|..] == rest
  {
  }

  lemma FullPrefix<T>(s: seq<T>)
    ensures s[..|s|] == s
  {
  }

  lemma PrefixStep<T>(s: seq<T>, i: nat)
    requires i < |s|
    ensures s[..i + 1] == s[..i] + [s[i]]
  {
  }

  /** The keys of a list of pairs, in their order. */
  function KeysIn<T>(pairs: seq<(Text, T)>): (keys: seq<Text>)
    ensures |keys| == |pairs| && forall i | 0 <= i < |pairs| :: keys[i] == pairs[i].0
  {
    seq(|pairs|, i requires 0 <= i < |pairs| => pairs[i].0)
  }

  /** The code points of a literal. */
  function Lit(s: string): (t: Text)
    ensures |t| == |s|
    ensures forall i | 0 <= i < |s| :: t[i] == s[i] as int
  {
    seq(|s|, i requires 0 <= i < |s| => s[i] as int)
  }

  /** Characters that `str.strip` and `str.split` treat as white space. */
  predicate IsSpace(c: CodePoint) {
    || 0x09 <= c <= 0x0D
    || 0x1C <= c <= 0x20
    || c == 0x85 || c == 0xA0 || c == 0x1680
    || 0x2000 <= c <= 0x200A
    || c == 0x2028 || c == 0x2029 || c == 0x202F || c == 0x205F || c == 0x3000
  }

  function TrimLeft(t: Text): (r: Text)
    ensures |r| <= |t|
  {
    if t != [] && IsSpace(t[0]) then TrimLeft(t[1..]) else t
  }

  function TrimRight(t: Text): (r: Text)
    ensures |r| <= |t|
  {
    if t != [] && IsSpace(t[|t| - 1]) then TrimRight(t[..|t| - 1]) else t
  }

  lemma {:induction false} TrimLeftSuffix(t: Text)
    ensures TrimLeft(t) == t[|t| - |TrimLeft(t)|..]
  {
    if t != [] && IsSpace(t[0]) {
      TrimLeftSuffix(t[1..]);
    }
  }

  lemma {:induction false} TrimRightPrefix(t: Text)
    ensures TrimRight(t) == t[..|TrimRight(t)|]
  {
    if t != [] && IsSpace(t[|t| - 1]) {
      TrimRightPrefix(t[..|t| - 1]);
    }
  }

  function Strip(t: Text): Text {
    TrimRight(TrimLeft(t))
  }

  predicate IsTrimmed(t: Text) {
    t == [] || (!IsSpace(t[0]) && !IsSpace(t[|t| - 1]))
  }

  /** `value == value.strip()` asks exactly that neither end is white space. */
  lemma {:induction false} StripFixesTrimmed(t: Text)
    ensures Strip(t) == t <==> IsTrimmed(t)
  {
    TrimLeftEnd(t);
    TrimRightEnd(TrimLeft(t));
    TrimLeftSuffix(t);
    if Strip(t) == t {
      assert |TrimLeft(t)| == |t|;
    }
  }

  lemma {:induction false} TrimLeftEnd(t: Text)
    ensures TrimLeft(t) == [] || !IsSpace(TrimLeft(t)[0])
  {
    if t != [] && IsSpace(t[0]) {
      TrimLeftEnd(t[1..]);
    }
  }

  lemma {:induction false} TrimRightEnd(t: Text)
    ensures TrimRight(t) == [] || !IsSpace(TrimRight(t)[|TrimRight(t)| - 1])
  {
    if t != [] && IsSpace(t[|t| - 1]) {
      TrimRightEnd(t[..|t| - 1]);
    }
  }

  predicate AllSpace(t: Text) {
    forall i | 0 <= i < |t| :: IsSpace(t[i])
  }

  lemma {:induction false} TrimPadding(pad: Text, t: Text)
    requires AllSpace(pad)
    ensures TrimLeft(pad + t) == TrimLeft(t)
  {
    if pad == [] {
      assert pad + t == t;
    } else {
      DropAppend(pad, 1, t);
      TrimPadding(pad[1..], t);
    }
  }

  lemma {:induction false} TrimTrailing(t: Text, pad: Text)
    requires AllSpace(pad)
    ensures TrimRight(t + pad) == TrimRight(t)
  {
    if pad == [] {
      assert t + pad == t;
    } else {
      var front := pad[..|pad| - 1];
      assert (t + pad)[..|t + pad| - 1] == t + front;
      TrimTrailing(t, front);
    }
  }

  /** What stripping cuts off at either end. */
  lemma {:induction false} TrimLeftCuts(t: Text)
    ensures AllSpace(t[..|t| - |TrimLeft(t)|])
  {
    if t != [] && IsSpace(t[0]) {
      TrimLeftCuts(t[1..]);
      assert t[..|t| - |TrimLeft(t)|] == [t[0]] + t[1..][..|t| - 1 - |TrimLeft(t)|];
    }
  }

  lemma {:induction false} TrimRightCuts(t: Text)
    ensures AllSpace(t[|TrimRight(t)|..])
  {
    if t != [] && IsSpace(t[|t| - 1]) {
      var front := t[..|t| - 1];
      TrimRightCuts(front);
      assert t[|TrimRight(t)|..] == front[|TrimRight(t)|..] + [t[|t| - 1]];
    }
  }

  /** `str.strip` is exactly the trimmed text that white space surrounds. */
  lemma StripIsExact(t: Text, r: Text)
    ensures Strip(t) == r <==> IsTrimmed(r) && exists a, b :: AllSpace(a) && AllSpace(b) && t == a + (r + b)
  {
    if Strip(t) == r {
      StripCutsSpace(t);
    }
    if a, b :| AllSpace(a) && AllSpace(b) && t == a + (r + b) {
      if IsTrimmed(r) {
        StripOfPadded(a, r, b);
      }
    }
  }

  lemma StripCutsSpace(t: Text)
    ensures IsTrimmed(Strip(t))
    ensures exists a, b :: AllSpace(a) && AllSpace(b) && t == a + (Strip(t) + b)
  {
    var s := TrimLeft(t);
    TrimLeftSuffix(t);
    TrimRightPrefix(s);
    TrimLeftCuts(t);
    TrimRightCuts(s);
    TrimLeftEnd(t);
    TrimRightEnd(s);
    var a, b := t[..|t| - |s|], s[|TrimRight(s)|..];
    assert s == TrimRight(s) + b;
    assert t == a + s;
  }

  lemma StripOfPadded(a: Text, r: Text, b: Text)
    requires AllSpace(a) && AllSpace(b) && IsTrimmed(r)
    ensures Strip(a + (r + b)) == r
  {
    TrimPadding(a, r + b);
    StripFixesTrimmed(r);
    if r == [] {
      assert r + b == b && b + [] == b;
      TrimPadding(b, []);
    } else {
      TrimTrailing(r, b);
    }
  }

  /** The white space of Unicode, character by character. */
  lemma SpacesSpelledOut(c: CodePoint)
    ensures IsSpace(c) <==> c in {
      9, 10, 11, 12, 13, 28, 29, 30, 31, 32, 133, 160, 5760, 8192, 8193, 8194, 8195, 8196, 8197, 8198, 8199, 8200,
      8201, 8202, 8232, 8233, 8239, 8287, 12288}
  {
  }

  function AsciiLower(t: Text): (r: Text)
    ensures |r| == |t|
  {
    seq(|t|, i requires 0 <= i < |t| => if 65 <= t[i] <= 90 then t[i] + 32 else t[i])
  }

  // ----- characters, spelled out -----

  const CAPITAL_LETTERS := Lit("ABCDEFGHIJKLMNOPQRSTUVWXYZ")
  const SMALL_LETTERS := Lit("abcdefghijklmnopqrstuvwxyz")
  const DECIMAL_DIGITS := Lit("0123456789")
  const LOWER_HEX := Lit("0123456789abcdef")
  const UPPER_HEX := Lit("0123456789ABCDEF")

  lemma HexCharacters(c: CodePoint)
    ensures c in LOWER_HEX <==> 48 <= c <= 57 || 97 <= c <= 102
  {
    assert forall i | 0 <= i < 10 :: LOWER_HEX[i] == 48 + i;
    assert forall i | 10 <= i < 16 :: LOWER_HEX[i] == 87 + i;
    if 48 <= c <= 57 {
      assert LOWER_HEX[c - 48] == c;
    } else if 97 <= c <= 102 {
      assert LOWER_HEX[c - 87] == c;
    }
  }

  lemma CapitalLetters(c: CodePoint)
    ensures c in CAPITAL_LETTERS <==> 65 <= c <= 90
  {
    assert forall i | 0 <= i < 26 :: CAPITAL_LETTERS[i] == 65 + i;
    if 65 <= c <= 90 {
      assert CAPITAL_LETTERS[c - 65] == c;
    }
  }

  lemma SmallLetters(c: CodePoint)
    ensures c in SMALL_LETTERS <==> 97 <= c <= 122
  {
    assert forall i | 0 <= i < 26 :: SMALL_LETTERS[i] == 97 + i;
    if 97 <= c <= 122 {
      assert SMALL_LETTERS[c - 97] == c;
    }
  }

  lemma DecimalDigits(c: CodePoint)
    ensures c in DECIMAL_DIGITS <==> 48 <= c <= 57
  {
    assert forall i | 0 <= i < 10 :: DECIMAL_DIGITS[i] == 48 + i;
    if 48 <= c <= 57 {
      assert DECIMAL_DIGITS[c - 48] == c;
    }
  }
}
