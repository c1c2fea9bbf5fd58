/** Printing and strict parsing undo each other on every valid JSON value. */
module JsonRoundTrip {
  import opened Base
  import opened Json
  import opened Runtimes
  import opened JsonPrint
  import opened JsonParse

  /** What is assumed of the library: `repr` of a finite float is a float lexeme that `float`
      reads back as the same number. */
  ghost predicate FloatsRoundTrip(rt: Runtime) {
    forall d: Double :: d.Finite? ==>
      && ScanNumber(rt.reprFloat(d)) == Some((|rt.reprFloat(d)|, true))
      && rt.parseFloat(rt.reprFloat(d)) == d
  }

  /** Where a value may end: at the end of the text, or before a separator, a closer or a blank. */
  predicate Delimited(rest: Text) {
    rest == [] || rest[0] == COMMA || rest[0] == CLOSE_BRACKET || rest[0] == CLOSE_BRACE || IsBlank(rest[0])
  }

  // ----- numbers -----

  predicate AllDigits(s: Text) {
    forall i | 0 <= i < |s| :: IsDigit(s[i])
  }

  lemma {:induction false} DigitRunStops(s: Text, rest: Text)
    requires rest == [] || !IsDigit(rest[0])
    ensures DigitRun(s + rest) == DigitRun(s)
  {
    if s == [] {
      assert s + rest == rest;
    } else if IsDigit(s[0]) {
      assert (s + rest)[1..] == s[1..] + rest;
      DigitRunStops(s[1..], rest);
    }
  }

  lemma NoExponent(s: Text)
    requires |s| < 2 || (s[0] != 101 && s[0] != 69) || (!IsDigit(s[1]) && s[1] != 43 && s[1] != MINUS)
    ensures ExponentRun(s) == 0
  {
  }

  lemma ShortExponentStops(s: Text, rest: Text)
    requires Delimited(rest) && |s| <= 1
    ensures ExponentRun(s + rest) == 0 == ExponentRun(s)
  {
    if s == [] {
      assert s + rest == rest;
    } else if rest != [] {
      assert (s + rest)[1] == rest[0];
      NoExponent(s + rest);
    }
  }

  lemma ExponentRunStops(s: Text, rest: Text)
    requires Delimited(rest)
    ensures ExponentRun(s + rest) == ExponentRun(s)
  {
    if |s| <= 1 {
      ShortExponentStops(s, rest);
    } else {
      DropAppend(s, 1, rest);
      DropAppend(s, 2, rest);
      DigitRunStops(s[1..], rest);
      DigitRunStops(s[2..], rest);
    }
  }

  lemma FractionRunStops(s: Text, rest: Text)
    requires Delimited(rest)
    ensures FractionRun(s + rest) == FractionRun(s)
  {
    if s == [] {
      assert s + rest == rest;
    } else {
      assert (s + rest)[1..] == s[1..] + rest;
      DigitRunStops(s[1..], rest);
    }
  }

  lemma IntegerRunStops(s: Text, rest: Text)
    requires Delimited(rest)
    ensures IntegerRun(s + rest) == IntegerRun(s)
  {
    if s == [] {
      assert s + rest == rest;
    } else {
      DigitRunStops(s, rest);
    }
  }

  lemma TailRunStops(s: Text, rest: Text)
    requires Delimited(rest)
    ensures TailRun(s + rest) == TailRun(s)
  {
    FractionRunStops(s, rest);
    DropAppend(s, FractionRun(s), rest);
    ExponentRunStops(s[FractionRun(s)..], rest);
  }

  lemma ScanUnsignedStops(s: Text, rest: Text)
    requires Delimited(rest)
    ensures ScanUnsigned(s + rest) == ScanUnsigned(s)
  {
    IntegerRunStops(s, rest);
    WholeAndTail(s);
    WholeAndTail(s + rest);
    DropAppend(s, IntegerRun(s), rest);
    TailRunStops(s[IntegerRun(s)..], rest);
  }

  lemma WholeAndTail(s: Text)
    ensures ScanUnsigned(s) == WholeTail(IntegerRun(s), TailRun(s[IntegerRun(s)..]))
  {
  }

  function WholeTail(whole: nat, tail: nat): Option<(nat, bool)> {
    if whole == 0 then None else Some((whole + tail, tail > 0))
  }

  lemma SignRunStops(s: Text, rest: Text)
    requires Delimited(rest)
    ensures SignRun(s + rest) == SignRun(s)
  {
  }

  /** A delimiter never changes what number the text before it starts with. */
  lemma ScanNumberStops(s: Text, rest: Text)
    requires Delimited(rest)
    ensures ScanNumber(s + rest) == ScanNumber(s)
  {
    SignRunStops(s, rest);
    DropAppend(s, SignRun(s), rest);
    ScanUnsignedStops(s[SignRun(s)..], rest);
  }

  lemma {:induction false} PrintNatDigits(n: nat)
    ensures AllDigits(PrintNat(n))
    ensures PrintNat(n)[0] == 48 ==> n == 0
    ensures ParseNat(PrintNat(n)) == n
  {
    if n < 10 {
      assert PrintNat(n)[..0] == [];
    } else {
      PrintNatDigits(n / 10);
      var t := PrintNat(n / 10) + [48 + n % 10];
      assert t[..|t| - 1] == PrintNat(n / 10);
    }
  }

  lemma DigitRunAll(s: Text)
    requires AllDigits(s)
    ensures DigitRun(s) == |s|
  {
  }

  lemma PrintIntScans(n: int)
    ensures ScanNumber(PrintInt(n)) == Some((|PrintInt(n)|, false))
    ensures ParseInt(PrintInt(n)) == n
  {
    var digits := PrintNat(if n < 0 then -n else n);
    PrintNatDigits(if n < 0 then -n else n);
    DigitRunAll(digits);
    var t := PrintInt(n);
    var sign := SignRun(t);
    assert t[sign..] == digits;
    assert IntegerRun(digits) == |digits|;
    assert t[|t|..] == [];
  }

  predicate AsciiUpTo(s: Text, n: nat) {
    n <= |s| && forall i | 0 <= i < n :: s[i] < 0x80
  }

  lemma AsciiJoin(s: Text, m: nat, n: nat)
    requires AsciiUpTo(s, m) && AsciiUpTo(s[m..], n)
    ensures AsciiUpTo(s, m + n)
  {
    forall i | m <= i < m + n ensures s[i] < 0x80 {
      assert s[i] == s[m..][i - m];
    }
  }

  lemma FractionIsAscii(s: Text)
    ensures AsciiUpTo(s, FractionRun(s))
  {
    if FractionRun(s) > 0 {
      AsciiJoin(s, 1, DigitRun(s[1..]));
    }
  }

  lemma ExponentIsAscii(s: Text)
    ensures AsciiUpTo(s, ExponentRun(s))
  {
    if ExponentRun(s) > 0 {
      var start := if s[1] == 43 || s[1] == MINUS then 2 else 1;
      AsciiJoin(s, start, DigitRun(s[start..]));
    }
  }

  lemma IntegerIsAscii(s: Text)
    ensures AsciiUpTo(s, IntegerRun(s))
  {
  }

  /** Only digits, signs, `.`, `e` and `E` occur in a number, and it starts with a sign or digit. */
  lemma ScannedIsAscii(s: Text)
    requires ScanNumber(s).Some?
    ensures AsciiUpTo(s, ScanNumber(s).value.0)
    ensures IsDigit(s[0]) || (s[0] == MINUS && |s| >= 2 && IsDigit(s[1]))
  {
    var sign := SignRun(s);
    var s1 := s[sign..];
    UnsignedIsAscii(s1);
    AsciiJoin(s, sign, ScanNumber(s).value.0 - sign);
  }

  lemma TailIsAscii(s: Text)
    ensures AsciiUpTo(s, TailRun(s))
  {
    FractionIsAscii(s);
    ExponentIsAscii(s[FractionRun(s)..]);
    AsciiJoin(s, FractionRun(s), ExponentRun(s[FractionRun(s)..]));
  }

  lemma UnsignedIsAscii(s: Text)
    requires ScanUnsigned(s).Some?
    ensures AsciiUpTo(s, ScanUnsigned(s).value.0) && IsDigit(s[0])
  {
    IntegerIsAscii(s);
    TailIsAscii(s[IntegerRun(s)..]);
    AsciiJoin(s, IntegerRun(s), TailRun(s[IntegerRun(s)..]));
  }

  // ----- strings -----

  lemma EscapeInverts(c: CodePoint, rest: Text)
    requires EscapeChar(c)[0] == BACKSLASH
    ensures ParseEscape(EscapeChar(c)[1..] + rest) == Ok((c, rest))
  {
    var e := EscapeChar(c)[1..];
    var s := e + rest;
    assert s[0] == e[0];
    if |e| == 1 {
      assert s[1..] == rest;
    } else {
      var u := s[1..];
      assert u[0] == 48 && u[1] == 48 && u[2] == HexDigit(c / 16) && u[3] == HexDigit(c % 16);
      assert Hex4(u) == Some(c);
      assert u[4..] == rest;
    }
  }

  /** One escaped or plain character in front of a string body. */
  lemma ParseEscaped(c: CodePoint, tail: Text)
    requires ParseString(tail).Ok?
    ensures ParseString(EscapeChar(c) + tail) == Ok(([c] + ParseString(tail).value.0, ParseString(tail).value.1))
  {
    var e := EscapeChar(c);
    DropAppend(e, 1, tail);
    if e[0] == BACKSLASH {
      EscapeInverts(c, tail);
    } else {
      ConsTail(c, tail);
    }
  }

  lemma {:induction false} ParsePrintString(t: Text, rest: Text)
    ensures ParseString(PrintChars(t, rest)) == Ok((t, rest))
  {
    if t == [] {
      ConsTail(QUOTE, rest);
    } else {
      ParsePrintString(t[1..], rest);
      ParseEscaped(t[0], PrintChars(t[1..], rest));
      assert t == [t[0]] + t[1..];
    }
  }

  // ----- values -----

  /** The tree that the canonical text of a value spells: members in key order. */
  function TreeOf(v: Json): Tree
    decreases v, 1, 0
  {
    match v
    case Null => TNull
    case Bool(b) => TBool(b)
    case Int(n) => TInt(n)
    case Float(d) => TFloat(d)
    case Str(t) => TStr(t)
    case Arr(items) => TArr(TreeItems(items))
    case Obj(fields) => TObj(TreeMembers(v, SortedKeys(fields.Keys)))
  }

  function TreeItems(items: seq<Json>): (trees: seq<Tree>)
    ensures |trees| == |items|
    ensures forall i | 0 <= i < |items| :: trees[i] == TreeOf(items[i])
    decreases items, 0, 0
  {
    if items == [] then [] else [TreeOf(items[0])] + TreeItems(items[1..])
  }

  function TreeMembers(v: Json, keys: seq<Text>): (pairs: seq<(Text, Tree)>)
    requires v.Obj? && forall k | k in keys :: k in v.fields
    ensures |pairs| == |keys|
    ensures forall i | 0 <= i < |keys| :: pairs[i] == (keys[i], TreeOf(v.fields[keys[i]]))
    decreases v, 0, |keys|
  {
    if keys == [] then []
    else [(keys[0], TreeOf(v.fields[keys[0]]))] + TreeMembers(v, keys[1..])
  }

  lemma MembersAreDistinct(v: Json, keys: seq<Text>)
    requires v.Obj? && StrictlyIncreasing(keys)
    requires forall k | k in keys :: k in v.fields
    ensures DistinctKeys(TreeMembers(v, keys))
  {
  }

  /** Assigning distinct keys one after another builds exactly the dict they list. */
  lemma DictOfListed(keys: seq<Text>, entries: seq<(Text, Json)>, fields: map<Text, Json>)
    requires StrictlyIncreasing(keys) && |entries| == |keys|
    requires forall k :: k in keys <==> k in fields
    requires forall i | 0 <= i < |keys| :: keys[i] in fields && entries[i] == (keys[i], fields[keys[i]])
    ensures DictOf(entries) == fields
  {
    var built := DictOf(entries);
    assert DistinctKeys(entries);
    forall k | k in fields ensures k in built && built[k] == fields[k] {
      var i :| 0 <= i < |keys| && keys[i] == k;
      DictKeeps(entries, i);
    }
    forall k | k in built ensures k in fields {
      var i := DictSource(entries, k);
      assert keys[i] in keys;
    }
  }

  lemma MemberEntry(v: Json, keys: seq<Text>, i: nat)
    requires v.Obj? && forall k | k in keys :: k in v.fields
    requires i < |keys| && ToJson(TreeOf(v.fields[keys[i]])) == v.fields[keys[i]]
    ensures Entries(TreeMembers(v, keys))[i] == (keys[i], v.fields[keys[i]])
  {
    EntryAt(TreeMembers(v, keys), i);
  }

  /** Reading the canonical tree of a value gives the value back. */
  lemma {:induction false} ToJsonTreeOf(v: Json)
    ensures ToJson(TreeOf(v)) == v
  {
    match v
    case Arr(items) =>
      forall i | 0 <= i < |items| ensures ToJson(TreeItems(items)[i]) == items[i] {
        ToJsonTreeOf(items[i]);
      }
      assert ToJson(TreeOf(v)).items == items;
    case Obj(fields) =>
      forall k | k in fields ensures ToJson(TreeOf(fields[k])) == fields[k] {
        ToJsonTreeOf(fields[k]);
      }
      var keys := SortedKeys(fields.Keys);
      var entries := Entries(TreeMembers(v, keys));
      SortedKeysIncrease(fields.Keys);
      forall i | 0 <= i < |keys| ensures keys[i] in fields && entries[i] == (keys[i], fields[keys[i]]) {
        assert keys[i] in keys;
        MemberEntry(v, keys, i);
      }
      DictOfListed(keys, entries, fields);
    case _ =>
  }

  /** A printed value begins with no blank and no closing bracket. */
  lemma PrintStart(rt: Runtime, v: Json, rest: Text)
    requires FloatsRoundTrip(rt) && Valid(v)
    ensures PrintValue(rt, v, rest) != [] && !IsBlank(PrintValue(rt, v, rest)[0])
    ensures PrintValue(rt, v, rest)[0] != CLOSE_BRACKET
  {
    match v
    case Int(n) =>
      PrintIntScans(n);
      ScannedIsAscii(PrintInt(n));
    case Float(d) => ScannedIsAscii(rt.reprFloat(d));
    case _ =>
  }

  lemma ParsePrintNumber(rt: Runtime, strict: bool, s: Text, rest: Text)
    requires ScanNumber(s).Some? && ScanNumber(s).value.0 == |s| && Delimited(rest)
    ensures ParseValue(rt, strict, s + rest)
         == Ok((if ScanNumber(s).value.1 then TFloat(rt.parseFloat(s)) else TInt(ParseInt(s)), rest))
  {
    var t := s + rest;
    ScanNumberStops(s, rest);
    ScannedIsAscii(s);
    assert t[0] == s[0] && (s[0] == MINUS ==> t[1] == s[1]);
    ParseNumber(rt, strict, t);
    SplitAppend(s, rest);
  }

  /** A text that starts like a number is read as the number scanned at its start. */
  lemma ParseNumber(rt: Runtime, strict: bool, t: Text)
    requires t != [] && (IsDigit(t[0]) || (t[0] == MINUS && |t| >= 2 && IsDigit(t[1])))
    requires ScanNumber(t).Some?
    ensures ParseValue(rt, strict, t) == ParseScalar(rt, t)
    ensures var (n, isFloat) := ScanNumber(t).value;
      ParseScalar(rt, t)
      == Ok((if isFloat then TFloat(rt.parseFloat(t[..n])) else TInt(ParseInt(t[..n])), t[n..]))
  {
    NumberIsNoWord(t);
  }

  lemma NumberIsNoWord(t: Text)
    requires t != [] && (IsDigit(t[0]) || (t[0] == MINUS && |t| >= 2 && IsDigit(t[1])))
    ensures !StartsWith(t, Lit("null")) && !StartsWith(t, Lit("true")) && !StartsWith(t, Lit("false"))
    ensures !StartsWith(t, Lit("NaN")) && !StartsWith(t, Lit("Infinity")) && !StartsWith(t, Lit("-Infinity"))
  {
    Differs(t, Lit("null"), 0);
    Differs(t, Lit("true"), 0);
    Differs(t, Lit("false"), 0);
    Differs(t, Lit("NaN"), 0);
    Differs(t, Lit("Infinity"), 0);
    Differs(t, Lit("-Infinity"), if t[0] == MINUS then 1 else 0);
  }

  lemma Differs(s: Text, prefix: Text, i: nat)
    requires i < |s| && i < |prefix| && s[i] != prefix[i]
    ensures !StartsWith(s, prefix)
  {
  }

  lemma ParsePrintScalar(rt: Runtime, v: Json, rest: Text)
    requires FloatsRoundTrip(rt) && Valid(v) && Delimited(rest)
    requires !v.Arr? && !v.Obj?
    ensures ParseValue(rt, true, PrintValue(rt, v, rest)) == Ok((TreeOf(v), rest))
  {
    var s := PrintValue(rt, v, rest);
    match v
    case Null => SplitAppend(Lit("null"), rest);
    case Bool(b) =>
      SplitAppend(if b then Lit("true") else Lit("false"), rest);
      Differs(s, Lit("null"), 0);
      if !b {
        Differs(s, Lit("true"), 0);
      }
    case Int(n) =>
      PrintIntScans(n);
      ParsePrintNumber(rt, true, PrintInt(n), rest);
    case Float(d) => ParsePrintNumber(rt, true, rt.reprFloat(d), rest);
    case Str(t) =>
      ConsTail(QUOTE, PrintChars(t, rest));
      ParsePrintString(t, rest);
  }

  lemma NoBlank(s: Text)
    requires s != [] && !IsBlank(s[0])
    ensures SkipBlanks(s) == s
  {
  }

  /** The reader stops exactly where the printed value stops, whatever delimited text follows. */
  lemma {:induction false} ParsePrint(rt: Runtime, v: Json, rest: Text)
    requires FloatsRoundTrip(rt) && Valid(v) && Delimited(rest)
    ensures ParseValue(rt, true, PrintValue(rt, v, rest)) == Ok((TreeOf(v), rest))
    decreases v, 2, 0
  {
    match v
    case Arr(items) => ParsePrintArray(rt, v, rest);
    case Obj(fields) => ParsePrintObject(rt, v, rest);
    case _ => ParsePrintScalar(rt, v, rest);
  }

  lemma {:induction false} ParsePrintArray(rt: Runtime, v: Json, rest: Text)
    requires FloatsRoundTrip(rt) && Valid(v) && v.Arr?
    ensures ParseValue(rt, true, PrintValue(rt, v, rest)) == Ok((TreeOf(v), rest))
    decreases v, 1, 0
  {
    if v.items == [] {
      var body := [CLOSE_BRACKET] + rest;
      ConsTail(OPEN_BRACKET, body);
      ConsTail(CLOSE_BRACKET, rest);
      NoBlank(body);
    } else {
      var body := PrintItems(rt, v.items, rest);
      ParsePrintItems(rt, v.items, rest);
      ItemsStart(rt, v.items, rest);
      ConsTail(OPEN_BRACKET, body);
      NoBlank(body);
    }
  }

  lemma ItemsStart(rt: Runtime, items: seq<Json>, rest: Text)
    requires FloatsRoundTrip(rt) && items != [] && Valid(items[0])
    ensures var s := PrintItems(rt, items, rest); s != [] && !IsBlank(s[0]) && s[0] != CLOSE_BRACKET
  {
    PrintStart(rt, items[0],
      if |items| == 1 then [CLOSE_BRACKET] + rest else [COMMA] + PrintItems(rt, items[1..], rest));
  }

  lemma {:induction false} ParsePrintItems(rt: Runtime, items: seq<Json>, rest: Text)
    requires FloatsRoundTrip(rt) && items != []
    requires forall i | 0 <= i < |items| :: Valid(items[i])
    ensures ParseItems(rt, true, PrintItems(rt, items, rest)) == Ok((TreeItems(items), rest))
    decreases items, 0, 0
  {
    if |items| == 1 {
      var after := [CLOSE_BRACKET] + rest;
      ParsePrint(rt, items[0], after);
      NoBlank(after);
      ConsTail(CLOSE_BRACKET, rest);
      assert TreeItems(items) == [TreeOf(items[0])];
    } else {
      var more := PrintItems(rt, items[1..], rest);
      var after := [COMMA] + more;
      ParsePrint(rt, items[0], after);
      NoBlank(after);
      ConsTail(COMMA, more);
      ItemsStart(rt, items[1..], rest);
      NoBlank(more);
      ParsePrintItems(rt, items[1..], rest);
    }
  }

  lemma {:induction false} ParsePrintObject(rt: Runtime, v: Json, rest: Text)
    requires FloatsRoundTrip(rt) && Valid(v) && v.Obj?
    ensures ParseValue(rt, true, PrintValue(rt, v, rest)) == Ok((TreeOf(v), rest))
    decreases v, 1, 0
  {
    var keys := SortedKeys(v.fields.Keys);
    if keys == [] {
      var body := [CLOSE_BRACE] + rest;
      ConsTail(OPEN_BRACE, body);
      ConsTail(CLOSE_BRACE, rest);
      NoBlank(body);
    } else {
      ParsePrintMembers(rt, v, keys, rest);
      MembersStart(rt, v, keys, rest);
      SortedKeysIncrease(v.fields.Keys);
      MembersAreDistinct(v, keys);
      ParseObject(rt, PrintMembers(rt, v, keys, rest));
    }
  }

  lemma ParseObject(rt: Runtime, body: Text)
    requires body != [] && body[0] == QUOTE
    requires ParseMembers(rt, true, body).Ok? && DistinctKeys(ParseMembers(rt, true, body).value.0)
    ensures var (pairs, rest) := ParseMembers(rt, true, body).value;
      ParseValue(rt, true, [OPEN_BRACE] + body) == Ok((TObj(pairs), rest))
  {
    ConsTail(OPEN_BRACE, body);
    NoBlank(body);
  }

  lemma MembersStart(rt: Runtime, v: Json, keys: seq<Text>, rest: Text)
    requires v.Obj? && keys != [] && forall k | k in keys :: k in v.fields
    ensures PrintMembers(rt, v, keys, rest) != [] && PrintMembers(rt, v, keys, rest)[0] == QUOTE
  {
  }

  /** One member of an object: key, colon, value, and the brace or comma after it. */
  lemma ParseMember(rt: Runtime, key: Text, item: Text, tree: Tree, mark: CodePoint, more: Text)
    requires item != [] && !IsBlank(item[0])
    requires mark == CLOSE_BRACE || mark == COMMA
    requires ParseValue(rt, true, item) == Ok((tree, [mark] + more))
    requires mark == COMMA ==> more != [] && !IsBlank(more[0]) && ParseMembers(rt, true, more).Ok?
    ensures ParseMembers(rt, true, PrintString(key, [COLON] + item))
         == if mark == CLOSE_BRACE then Ok(([(key, tree)], more))
            else Ok(([(key, tree)] + ParseMembers(rt, true, more).value.0, ParseMembers(rt, true, more).value.1))
  {
    var colon := [COLON] + item;
    ConsTail(QUOTE, PrintChars(key, colon));
    ParsePrintString(key, colon);
    NoBlank(colon);
    ConsTail(COLON, item);
    NoBlank(item);
    NoBlank([mark] + more);
    ConsTail(mark, more);
    if mark == COMMA {
      NoBlank(more);
    }
  }

  lemma {:induction false} ParsePrintMembers(rt: Runtime, v: Json, keys: seq<Text>, rest: Text)
    requires FloatsRoundTrip(rt) && v.Obj? && Valid(v) && keys != []
    requires forall k | k in keys :: k in v.fields
    ensures ParseMembers(rt, true, PrintMembers(rt, v, keys, rest)) == Ok((TreeMembers(v, keys), rest))
    decreases v, 0, |keys|
  {
    var key := keys[0];
    assert key in keys;
    var item := v.fields[key];
    if |keys| == 1 {
      var after := [CLOSE_BRACE] + rest;
      PrintStart(rt, item, after);
      ParsePrint(rt, item, after);
      ParseMember(rt, key, PrintValue(rt, item, after), TreeOf(item), CLOSE_BRACE, rest);
      assert TreeMembers(v, keys) == [(key, TreeOf(item))];
    } else {
      assert forall k | k in keys[1..] :: k in keys;
      var more := PrintMembers(rt, v, keys[1..], rest);
      var after := [COMMA] + more;
      ParsePrintMembers(rt, v, keys[1..], rest);
      MembersStart(rt, v, keys[1..], rest);
      PrintStart(rt, item, after);
      ParsePrint(rt, item, after);
      ParseMember(rt, key, PrintValue(rt, item, after), TreeOf(item), COMMA, more);
    }
  }
}
