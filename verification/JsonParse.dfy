/** `strict_json_loads`: the JSON reader of the library, run with the strict hooks. */
module JsonParse {
  import opened Base
  import opened Json
  import opened Runtimes
  import opened JsonPrint
  import Utf8

  const INVALID := Format("json_invalid")
  const MISSING := Format("json_missing")
  const NOT_UTF8 := Format("json_not_utf8")
  const NON_FINITE := Format("json_non_finite_number")
  const DUPLICATE_KEY := Format("json_duplicate_object_key")

  /** What a text says, with the members of an object as the list of pairs it spells. */
  datatype Tree =
    | TNull
    | TBool(b: bool)
    | TInt(n: int)
    | TFloat(d: Double)
    | TStr(t: Text)
    | TArr(items: seq<Tree>)
    | TObj(pairs: seq<(Text, Tree)>)

  predicate IsDigit(c: CodePoint) {
    48 <= c <= 57
  }

  predicate IsBlank(c: CodePoint) {
    c == 32 || c == 9 || c == 10 || c == 13
  }

  function SkipBlanks(s: Text): (r: Text)
    ensures |r| <= |s|
  {
    if s != [] && IsBlank(s[0]) then SkipBlanks(s[1..]) else s
  }

  function DigitRun(s: Text): (n: nat)
    ensures n <= |s|
    ensures forall i | 0 <= i < n :: IsDigit(s[i])
    ensures n < |s| ==> !IsDigit(s[n])
  {
    if s != [] && IsDigit(s[0]) then 1 + DigitRun(s[1..]) else 0
  }

  function IntegerRun(s: Text): (n: nat)
    ensures n <= |s|
  {
    if s == [] || !IsDigit(s[0]) then 0 else if s[0] == 48 then 1 else DigitRun(s)
  }

  function FractionRun(s: Text): (n: nat)
    ensures n <= |s|
  {
    if |s| >= 2 && s[0] == 46 && IsDigit(s[1]) then 1 + DigitRun(s[1..]) else 0
  }

  /** `e` or `E`, one optional sign and at least one digit; otherwise nothing is read. */
  function ExponentRun(s: Text): (n: nat)
    ensures n <= |s|
  {
    if |s| >= 2 && (s[0] == 101 || s[0] == 69) then
      var sign := if s[1] == 43 || s[1] == MINUS then 1 else 0;
      var digits := DigitRun(s[1 + sign..]);
      if digits > 0 then 1 + sign + digits else 0
    else 0
  }

  function SignRun(s: Text): (n: nat)
    ensures n <= |s|
  {
    if s != [] && s[0] == MINUS then 1 else 0
  }

  /** The fraction and the exponent after the whole part. */
  function TailRun(s: Text): (n: nat)
    ensures n <= |s|
  {
    FractionRun(s) + ExponentRun(s[FractionRun(s)..])
  }

  function ScanUnsigned(s: Text): (r: Option<(nat, bool)>)
    ensures r.Some? ==> 0 < r.value.0 <= |s|
  {
    var whole := IntegerRun(s);
    if whole == 0 then None
    else
      var tail := TailRun(s[whole..]);
      Some((whole + tail, tail > 0))
  }

  /** The longest number at the start of the text: its length, and whether it is a float. */
  function ScanNumber(s: Text): (r: Option<(nat, bool)>)
    ensures r.Some? ==> 0 < r.value.0 <= |s|
  {
    var sign := SignRun(s);
    match ScanUnsigned(s[sign..])
    case None => None
    case Some((n, isFloat)) => Some((sign + n, isFloat))
  }

  function ParseNat(s: Text): int {
    if s == [] then 0 else ParseNat(s[..|s| - 1]) * 10 + (s[|s| - 1] as int - 48)
  }

  function ParseInt(s: Text): int {
    if s != [] && s[0] == MINUS then -ParseNat(s[1..]) else ParseNat(s)
  }

  function HexValue(c: CodePoint): Option<nat> {
    if 48 <= c <= 57 then Some(c - 48)
    else if 97 <= c <= 102 then Some(c - 87)
    else if 65 <= c <= 70 then Some(c - 55)
    else None
  }

  function Hex4(s: Text): (r: Option<CodePoint>)
    ensures r.Some? ==> |s| >= 4 && r.value < 0x1_0000
  {
    if |s| < 4 then None
    else
      var (a, b, c, d) := (HexValue(s[0]), HexValue(s[1]), HexValue(s[2]), HexValue(s[3]));
      if a.Some? && b.Some? && c.Some? && d.Some?
         && a.value < 16 && b.value < 16 && c.value < 16 && d.value < 16 then
        Some(a.value * 0x1000 + b.value * 0x100 + c.value * 0x10 + d.value)
      else None
  }

  /** A `\u` escape after the `u`: a high surrogate joins a low one escaped right after it. */
  function ParseUnicodeEscape(s: Text): (r: Result<(CodePoint, Text)>)
    ensures r.Ok? ==> |r.value.1| < |s|
  {
    var c := Hex4(s);
    if c.None? then Err(INVALID)
    else if 0xD800 <= c.value < 0xDC00 && |s| >= 10 && s[4] == BACKSLASH && s[5] == LETTER_U then
      var low := Hex4(s[6..]);
      if low.None? then Err(INVALID)
      else if 0xDC00 <= low.value < 0xE000 then
        Ok((0x1_0000 + (c.value - 0xD800) * 0x400 + (low.value - 0xDC00), s[10..]))
      else Ok((c.value, s[4..]))
    else Ok((c.value, s[4..]))
  }

  function ParseEscape(s: Text): (r: Result<(CodePoint, Text)>)
    ensures r.Ok? ==> |r.value.1| < |s|
  {
    if s == [] then Err(INVALID)
    else if s[0] == QUOTE || s[0] == BACKSLASH || s[0] == 47 then Ok((s[0], s[1..]))
    else if s[0] == 98 then Ok((8, s[1..]))
    else if s[0] == 102 then Ok((12, s[1..]))
    else if s[0] == 110 then Ok((10, s[1..]))
    else if s[0] == 114 then Ok((13, s[1..]))
    else if s[0] == 116 then Ok((9, s[1..]))
    else if s[0] == LETTER_U then ParseUnicodeEscape(s[1..])
    else Err(INVALID)
  }

  /** A string literal after its opening quote. */
  function ParseString(s: Text): (r: Result<(Text, Text)>)
    ensures r.Ok? ==> |r.value.1| < |s|
    decreases |s|
  {
    if s == [] || (s[0] < 0x20) then Err(INVALID)
    else if s[0] == QUOTE then Ok(([], s[1..]))
    else if s[0] == BACKSLASH then
      var (c, rest) :- ParseEscape(s[1..]);
      var (t, tail) :- ParseString(rest);
      Ok(([c] + t, tail))
    else
      var (t, tail) :- ParseString(s[1..]);
      Ok(([s[0]] + t, tail))
  }

  predicate StartsWith(s: Text, prefix: Text) {
    prefix <= s
  }

  ghost predicate DistinctKeys<T>(pairs: seq<(Text, T)>) {
    forall i, j | 0 <= i < j < |pairs| :: pairs[i].0 != pairs[j].0
  }

  predicate HasDuplicateKey<T>(pairs: seq<(Text, T)>)
    ensures HasDuplicateKey(pairs) <==> !DistinctKeys(pairs)
  {
    exists i, j :: 0 <= i < j < |pairs| && pairs[i].0 == pairs[j].0
  }

  /** One JSON value at the start of the text, and what follows it. With `strict`, the
      object hook refuses a repeated key as soon as the object closes. */
  function ParseValue(rt: Runtime, strict: bool, s: Text): (r: Result<(Tree, Text)>)
    ensures r.Ok? ==> |r.value.1| < |s|
    decreases |s|, 0
  {
    if s == [] then Err(INVALID)
    else if s[0] == QUOTE then
      var (t, rest) :- ParseString(s[1..]);
      Ok((TStr(t), rest))
    else if s[0] == OPEN_BRACE then
      var body := SkipBlanks(s[1..]);
      if body != [] && body[0] == CLOSE_BRACE then Ok((TObj([]), body[1..]))
      else
        var (pairs, rest) :- ParseMembers(rt, strict, body);
        if strict && HasDuplicateKey(pairs) then Err(DUPLICATE_KEY) else Ok((TObj(pairs), rest))
    else if s[0] == OPEN_BRACKET then
      var body := SkipBlanks(s[1..]);
      if body != [] && body[0] == CLOSE_BRACKET then Ok((TArr([]), body[1..]))
      else
        var (items, rest) :- ParseItems(rt, strict, body);
        Ok((TArr(items), rest))
    else ParseScalar(rt, s)
  }

  function ParseScalar(rt: Runtime, s: Text): (r: Result<(Tree, Text)>)
    ensures r.Ok? ==> |r.value.1| < |s|
  {
    if StartsWith(s, Lit("null")) then Ok((TNull, s[4..]))
    else if StartsWith(s, Lit("true")) then Ok((TBool(true), s[4..]))
    else if StartsWith(s, Lit("false")) then Ok((TBool(false), s[5..]))
    else if StartsWith(s, Lit("NaN")) || StartsWith(s, Lit("Infinity")) || StartsWith(s, Lit("-Infinity")) then
      Err(NON_FINITE)
    else
      match ScanNumber(s)
      case None => Err(INVALID)
      case Some((n, isFloat)) =>
        Ok((if isFloat then TFloat(rt.parseFloat(s[..n])) else TInt(ParseInt(s[..n])), s[n..]))
  }

  function ParseItems(rt: Runtime, strict: bool, s: Text): (r: Result<(seq<Tree>, Text)>)
    ensures r.Ok? ==> |r.value.1| < |s|
    decreases |s|, 1
  {
    var (item, rest) :- ParseValue(rt, strict, s);
    var after := SkipBlanks(rest);
    if after != [] && after[0] == CLOSE_BRACKET then Ok(([item], after[1..]))
    else if after != [] && after[0] == COMMA then
      var (items, tail) :- ParseItems(rt, strict, SkipBlanks(after[1..]));
      Ok(([item] + items, tail))
    else Err(INVALID)
  }

  function ParseMembers(rt: Runtime, strict: bool, s: Text): (r: Result<(seq<(Text, Tree)>, Text)>)
    ensures r.Ok? ==> |r.value.1| < |s|
    decreases |s|, 1
  {
    if s == [] || s[0] != QUOTE then Err(INVALID)
    else
      var (key, rest) :- ParseString(s[1..]);
      var colon := SkipBlanks(rest);
      if colon == [] || colon[0] != COLON then Err(INVALID)
      else
        var (item, rest2) :- ParseValue(rt, strict, SkipBlanks(colon[1..]));
        var after := SkipBlanks(rest2);
        if after != [] && after[0] == CLOSE_BRACE then Ok(([(key, item)], after[1..]))
        else if after != [] && after[0] == COMMA then
          var (pairs, tail) :- ParseMembers(rt, strict, SkipBlanks(after[1..]));
          Ok(([(key, item)] + pairs, tail))
        else Err(INVALID)
  }

  /** A whole text: one value between blanks and nothing else. */
  function ReadTree(rt: Runtime, strict: bool, text: Text): Result<Tree> {
    var (tree, rest) :- ParseValue(rt, strict, SkipBlanks(text));
    if SkipBlanks(rest) == [] then Ok(tree) else Err(INVALID)
  }

  /** The dict that assigning the pairs in order builds. */
  function DictOf(pairs: seq<(Text, Json)>): map<Text, Json> {
    if pairs == [] then map[]
    else
      var last := pairs[|pairs| - 1];
      DictOf(pairs[..|pairs| - 1])[last.0 := last.1]
  }

  /** Whatever the dict holds was assigned by some pair. */
  lemma {:induction false} DictSource(pairs: seq<(Text, Json)>, k: Text) returns (i: nat)
    requires k in DictOf(pairs)
    ensures i < |pairs| && pairs[i] == (k, DictOf(pairs)[k])
  {
    var last := |pairs| - 1;
    if pairs[last].0 == k {
      i := last;
    } else {
      i := DictSource(pairs[..last], k);
    }
  }

  /** A pair whose key occurs once is kept. */
  lemma {:induction false} DictKeeps(pairs: seq<(Text, Json)>, i: nat)
    requires DistinctKeys(pairs) && i < |pairs|
    ensures pairs[i].0 in DictOf(pairs) && DictOf(pairs)[pairs[i].0] == pairs[i].1
  {
    var last := |pairs| - 1;
    if i < last {
      assert pairs[..last][i] == pairs[i];
      DictKeeps(pairs[..last], i);
    }
  }

  lemma {:induction false} DictSize(pairs: seq<(Text, Json)>)
    requires DistinctKeys(pairs)
    ensures |DictOf(pairs)| == |pairs|
  {
    if pairs != [] {
      var last := |pairs| - 1;
      DictSize(pairs[..last]);
      if pairs[last].0 in DictOf(pairs[..last]) {
        var i := DictSource(pairs[..last], pairs[last].0);
      }
    }
  }

  /** The object hook `_unique_json_object`: a dict with one entry a pair, or an error. */
  method UniqueJsonObject(pairs: seq<(Text, Json)>) returns (r: Result<map<Text, Json>>)
    ensures r == if DistinctKeys(pairs) then Ok(DictOf(pairs)) else Err(DUPLICATE_KEY)
    ensures r.Ok? ==> |r.value| == |pairs|
    ensures r.Ok? ==> forall i | 0 <= i < |pairs| :: pairs[i].0 in r.value && r.value[pairs[i].0] == pairs[i].1
  {
    var value: map<Text, Json> := map[];
    for n := 0 to |pairs|
      invariant DistinctKeys(pairs[..n])
      invariant value == DictOf(pairs[..n])
    {
      var (key, item) := pairs[n];
      if key in value {
        ghost var i := DictSource(pairs[..n], key);
        assert pairs[i].0 == pairs[n].0;
        return Err(DUPLICATE_KEY);
      }
      forall i | 0 <= i < n ensures pairs[i].0 != key {
        DictKeeps(pairs[..n], i);
        assert pairs[..n][i] == pairs[i];
      }
      assert pairs[..n + 1][..n] == pairs[..n];
      value := value[key := item];
    }
    assert pairs[..|pairs|] == pairs;
    DictSize(pairs);
    forall i | 0 <= i < |pairs| ensures pairs[i].0 in value && value[pairs[i].0] == pairs[i].1 {
      DictKeeps(pairs, i);
    }
    return Ok(value);
  }

  function ToJson(tree: Tree): Json {
    match tree
    case TNull => Null
    case TBool(b) => Bool(b)
    case TInt(n) => Int(n)
    case TFloat(d) => Float(d)
    case TStr(t) => Str(t)
    case TArr(items) => Arr(seq(|items|, i requires 0 <= i < |items| => ToJson(items[i])))
    case TObj(pairs) => Obj(DictOf(Entries(pairs)))
  }

  function Entries(pairs: seq<(Text, Tree)>): (entries: seq<(Text, Json)>)
    ensures |entries| == |pairs|
    ensures forall i | 0 <= i < |pairs| :: entries[i].0 == pairs[i].0
  {
    if pairs == [] then []
    else
      assert pairs decreases to pairs[0];
      assert pairs[0] decreases to pairs[0].1;
      [(pairs[0].0, ToJson(pairs[0].1))] + Entries(pairs[1..])
  }

  lemma {:induction false} EntryAt(pairs: seq<(Text, Tree)>, i: nat)
    requires i < |pairs|
    ensures Entries(pairs)[i] == (pairs[i].0, ToJson(pairs[i].1))
  {
    if i > 0 {
      EntryAt(pairs[1..], i - 1);
    }
  }

  function StrictLoadsText(rt: Runtime, text: Text): Result<Json> {
    var _ :- Need(text != [], MISSING);
    var tree :- ReadTree(rt, true, text);
    var _ :- Validate(ToJson(tree));
    Ok(ToJson(tree))
  }

  function StrictLoads(rt: Runtime, b: Bytes): Result<Json> {
    match Utf8.Decode(b)
    case None => Err(NOT_UTF8)
    case Some(text) => StrictLoadsText(rt, text)
  }
}
