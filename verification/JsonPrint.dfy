/** `canonical_json_bytes`: sorted keys, compact separators, least escaping, no coercion. */
module JsonPrint {
  import opened Base
  import opened Json
  import opened Runtimes
  import Utf8

  const QUOTE: CodePoint := 34
  const BACKSLASH: CodePoint := 92
  const COMMA: CodePoint := 44
  const COLON: CodePoint := 58
  const OPEN_BRACKET: CodePoint := 91
  const CLOSE_BRACKET: CodePoint := 93
  const OPEN_BRACE: CodePoint := 123
  const CLOSE_BRACE: CodePoint := 125
  const MINUS: CodePoint := 45
  const LETTER_U: CodePoint := 117

  const CANONICALIZATION_FAILED := Format("json_canonicalization_failed")

  /** The recursive check a value must pass before it is printed and after it is parsed. */
  function Validate(v: Json): (r: Result<()>)
    ensures r.Ok? <==> Valid(v)
    ensures r.Err? ==> r.error in {Format("json_invalid_unicode"), Format("json_non_finite_number")}
    decreases v, 1, 0
  {
    match v
    case Float(d) => Need(d.Finite?, Format("json_non_finite_number"))
    case Str(t) => Need(Utf8.Encodable(t), Format("json_invalid_unicode"))
    case Arr(items) => ValidateItems(items)
    case Obj(fields) => ValidateMembers(v, SortedKeys(fields.Keys))
    case _ => Ok(())
  }

  function ValidateItems(items: seq<Json>): (r: Result<()>)
    ensures r.Ok? <==> forall i | 0 <= i < |items| :: Valid(items[i])
    ensures r.Err? ==> r.error in {Format("json_invalid_unicode"), Format("json_non_finite_number")}
    decreases items, 0, 0
  {
    if items == [] then Ok(())
    else
      var _ :- Validate(items[0]);
      ValidateItems(items[1..])
  }

  function ValidateMembers(v: Json, keys: seq<Text>): (r: Result<()>)
    requires v.Obj? && forall k | k in keys :: k in v.fields
    ensures r.Ok? <==> forall k | k in keys :: Utf8.Encodable(k) && Valid(v.fields[k])
    ensures r.Err? ==> r.error in {Format("json_invalid_unicode"), Format("json_non_finite_number")}
    decreases v, 0, |keys|
  {
    if keys == [] then Ok(())
    else
      var _ :- Need(Utf8.Encodable(keys[0]), Format("json_invalid_unicode"));
      var _ :- Validate(v.fields[keys[0]]);
      ValidateMembers(v, keys[1..])
  }

  const INVALID_UNICODE := Format("json_invalid_unicode")
  const NON_FINITE_NUMBER := Format("json_non_finite_number")

  /** Somewhere in the value a string or a key has a surrogate in it. */
  ghost predicate HasBadText(v: Json) {
    match v
    case Str(t) => !Utf8.Encodable(t)
    case Arr(items) => exists i :: 0 <= i < |items| && HasBadText(items[i])
    case Obj(fields) => exists k :: k in fields && (!Utf8.Encodable(k) || HasBadText(fields[k]))
    case _ => false
  }

  /** Somewhere in the value a float is not finite. */
  ghost predicate HasBadFloat(v: Json) {
    match v
    case Float(d) => !d.Finite?
    case Arr(items) => exists i :: 0 <= i < |items| && HasBadFloat(items[i])
    case Obj(fields) => exists k :: k in fields && HasBadFloat(fields[k])
    case _ => false
  }

  /** The check passes iff there is neither defect, and its code names one that is there; a value with
      defects of one kind only gets the code of that kind. */
  lemma {:induction false} CodeNamesDefect(v: Json)
    ensures Validate(v).Ok? <==> !HasBadText(v) && !HasBadFloat(v)
    ensures Validate(v) == Err(INVALID_UNICODE) ==> HasBadText(v)
    ensures Validate(v) == Err(NON_FINITE_NUMBER) ==> HasBadFloat(v)
    ensures HasBadText(v) && !HasBadFloat(v) ==> Validate(v) == Err(INVALID_UNICODE)
    ensures HasBadFloat(v) && !HasBadText(v) ==> Validate(v) == Err(NON_FINITE_NUMBER)
    decreases v, 1, 0
  {
    match v
    case Arr(items) => ItemsNameDefect(items);
    case Obj(fields) => MembersNameDefect(v, SortedKeys(fields.Keys));
    case _ =>
  }

  lemma {:induction false} ItemsNameDefect(items: seq<Json>)
    ensures ValidateItems(items).Ok? <==> !HasBadText(Arr(items)) && !HasBadFloat(Arr(items))
    ensures ValidateItems(items) == Err(INVALID_UNICODE) ==> HasBadText(Arr(items))
    ensures ValidateItems(items) == Err(NON_FINITE_NUMBER) ==> HasBadFloat(Arr(items))
    decreases items, 0, 0
  {
    if items != [] {
      CodeNamesDefect(items[0]);
      ItemsNameDefect(items[1..]);
      ItemsSplit(items);
    }
  }

  lemma ItemsSplit(items: seq<Json>)
    requires items != []
    ensures HasBadText(Arr(items)) <==> HasBadText(items[0]) || HasBadText(Arr(items[1..]))
    ensures HasBadFloat(Arr(items)) <==> HasBadFloat(items[0]) || HasBadFloat(Arr(items[1..]))
  {
    assert forall i | 0 < i < |items| :: items[i] == items[1..][i - 1];
    assert forall i | 0 <= i < |items[1..]| :: items[1..][i] == items[i + 1];
  }

  /** One of the members under these keys has the defect. */
  ghost predicate KeysHaveBadText(v: Json, keys: seq<Text>)
    requires v.Obj? && forall k | k in keys :: k in v.fields
  {
    exists k :: k in keys && (!Utf8.Encodable(k) || HasBadText(v.fields[k]))
  }

  ghost predicate KeysHaveBadFloat(v: Json, keys: seq<Text>)
    requires v.Obj? && forall k | k in keys :: k in v.fields
  {
    exists k :: k in keys && HasBadFloat(v.fields[k])
  }

  lemma {:induction false} MembersNameDefect(v: Json, keys: seq<Text>)
    requires v.Obj? && forall k | k in keys :: k in v.fields
    ensures ValidateMembers(v, keys).Ok? <==> !KeysHaveBadText(v, keys) && !KeysHaveBadFloat(v, keys)
    ensures ValidateMembers(v, keys) == Err(INVALID_UNICODE) ==> KeysHaveBadText(v, keys)
    ensures ValidateMembers(v, keys) == Err(NON_FINITE_NUMBER) ==> KeysHaveBadFloat(v, keys)
    decreases v, 0, |keys|
  {
    if keys != [] {
      var rest := keys[1..];
      assert keys[0] in keys && forall k | k in rest :: k in keys;
      assert forall k | k in keys :: k == keys[0] || k in rest by {
        assert keys == [keys[0]] + rest;
      }
      CodeNamesDefect(v.fields[keys[0]]);
      MembersNameDefect(v, rest);
    }
  }

  function PrintNat(n: nat): (t: Text)
    ensures t != []
  {
    if n < 10 then [48 + n] else PrintNat(n / 10) + [48 + n % 10]
  }

  function PrintInt(n: int): Text {
    if n < 0 then [MINUS] + PrintNat(-n) else PrintNat(n)
  }

  function HexDigit(n: nat): CodePoint
    requires n < 16
  {
    if n < 10 then 48 + n else 87 + n
  }

  function EscapeChar(c: CodePoint): (t: Text)
    ensures t != []
  {
    if c == QUOTE || c == BACKSLASH then [BACKSLASH, c]
    else if c == 8 then [BACKSLASH, 98]
    else if c == 12 then [BACKSLASH, 102]
    else if c == 10 then [BACKSLASH, 110]
    else if c == 13 then [BACKSLASH, 114]
    else if c == 9 then [BACKSLASH, 116]
    else if c < 0x20 then [BACKSLASH, LETTER_U, 48, 48, HexDigit(c / 16), HexDigit(c % 16)]
    else [c]
  }

  /** The characters of a string literal after its opening quote, then `rest`. */
  function PrintChars(s: Text, rest: Text): Text {
    if s == [] then [QUOTE] + rest else EscapeChar(s[0]) + PrintChars(s[1..], rest)
  }

  function PrintString(s: Text, rest: Text): Text {
    [QUOTE] + PrintChars(s, rest)
  }

  /** `json.dumps` with `ensure_ascii=False, sort_keys=True, separators=(",", ":")`: the text
      of the value, then `rest`. */
  function PrintValue(rt: Runtime, v: Json, rest: Text): Text
    decreases v, 1, 0
  {
    match v
    case Null => Lit("null") + rest
    case Bool(b) => (if b then Lit("true") else Lit("false")) + rest
    case Int(n) => PrintInt(n) + rest
    case Float(d) => rt.reprFloat(d) + rest
    case Str(t) => PrintString(t, rest)
    case Arr(items) =>
      [OPEN_BRACKET] + if items == [] then [CLOSE_BRACKET] + rest else PrintItems(rt, items, rest)
    case Obj(fields) =>
      var keys := SortedKeys(fields.Keys);
      [OPEN_BRACE] + if keys == [] then [CLOSE_BRACE] + rest else PrintMembers(rt, v, keys, rest)
  }

  /** The items of an array after its opening bracket. */
  function PrintItems(rt: Runtime, items: seq<Json>, rest: Text): Text
    requires items != []
    decreases items, 0, 0
  {
    PrintValue(rt, items[0],
      if |items| == 1 then [CLOSE_BRACKET] + rest else [COMMA] + PrintItems(rt, items[1..], rest))
  }

  /** The members of an object after its opening brace. */
  function PrintMembers(rt: Runtime, v: Json, keys: seq<Text>, rest: Text): Text
    requires v.Obj? && keys != [] && forall k | k in keys :: k in v.fields
    decreases v, 0, |keys|
  {
    var after := if |keys| == 1 then [CLOSE_BRACE] + rest else [COMMA] + PrintMembers(rt, v, keys[1..], rest);
    PrintString(keys[0], [COLON] + PrintValue(rt, v.fields[keys[0]], after))
  }

  function Print(rt: Runtime, v: Json): Text {
    PrintValue(rt, v, [])
  }

  function CanonicalBytes(rt: Runtime, v: Json): Result<Bytes> {
    var _ :- Validate(v);
    var text := Print(rt, v);
    if Utf8.Encodable(text) then Ok(Utf8.Encode(text)) else Err(CANONICALIZATION_FAILED)
  }
}
