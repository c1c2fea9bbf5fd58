/** What the JSON codec promises, over every value and every text. */
module JsonTheorems {
  import opened Base
  import opened Json
  import opened Runtimes
  import opened JsonPrint
  import opened JsonParse
  import opened JsonRoundTrip
  import Utf8

  lemma {:induction false} CharsEncodable(t: Text, rest: Text)
    requires Utf8.Encodable(t) && Utf8.Encodable(rest)
    ensures Utf8.Encodable(PrintChars(t, rest))
  {
    if t != [] {
      CharsEncodable(t[1..], rest);
      assert Utf8.Encodable(EscapeChar(t[0]));
    }
  }

  lemma NumberEncodable(t: Text, rest: Text)
    requires ScanNumber(t).Some? && ScanNumber(t).value.0 == |t| && Utf8.Encodable(rest)
    ensures Utf8.Encodable(t + rest)
  {
    ScannedIsAscii(t);
  }

  /** The text of a valid value has no surrogate in it. */
  lemma {:induction false} PrintEncodable(rt: Runtime, v: Json, rest: Text)
    requires FloatsRoundTrip(rt) && Valid(v) && Utf8.Encodable(rest)
    ensures Utf8.Encodable(PrintValue(rt, v, rest))
    decreases v, 1, 0
  {
    match v
    case Int(n) =>
      PrintIntScans(n);
      NumberEncodable(PrintInt(n), rest);
    case Float(d) => NumberEncodable(rt.reprFloat(d), rest);
    case Str(t) => CharsEncodable(t, rest);
    case Arr(items) =>
      if items != [] {
        ItemsEncodable(rt, items, rest);
      }
    case Obj(fields) =>
      if SortedKeys(fields.Keys) != [] {
        MembersEncodable(rt, v, SortedKeys(fields.Keys), rest);
      }
    case _ =>
  }

  lemma {:induction false} ItemsEncodable(rt: Runtime, items: seq<Json>, rest: Text)
    requires FloatsRoundTrip(rt) && items != [] && Utf8.Encodable(rest)
    requires forall i | 0 <= i < |items| :: Valid(items[i])
    ensures Utf8.Encodable(PrintItems(rt, items, rest))
    decreases items, 0, 0
  {
    if |items| == 1 {
      PrintEncodable(rt, items[0], [CLOSE_BRACKET] + rest);
    } else {
      ItemsEncodable(rt, items[1..], rest);
      PrintEncodable(rt, items[0], [COMMA] + PrintItems(rt, items[1..], rest));
    }
  }

  lemma {:induction false} MembersEncodable(rt: Runtime, v: Json, keys: seq<Text>, rest: Text)
    requires FloatsRoundTrip(rt) && v.Obj? && Valid(v) && keys != [] && Utf8.Encodable(rest)
    requires forall k | k in keys :: k in v.fields
    ensures Utf8.Encodable(PrintMembers(rt, v, keys, rest))
    decreases v, 0, |keys|
  {
    assert keys[0] in keys;
    var after := if |keys| == 1 then [CLOSE_BRACE] + rest else [COMMA] + PrintMembers(rt, v, keys[1..], rest);
    if |keys| > 1 {
      MembersEncodable(rt, v, keys[1..], rest);
      MarkEncodable(COMMA, PrintMembers(rt, v, keys[1..], rest));
    } else {
      MarkEncodable(CLOSE_BRACE, rest);
    }
    PrintEncodable(rt, v.fields[keys[0]], after);
    StringEncodable(keys[0], PrintValue(rt, v.fields[keys[0]], after));
  }

  lemma StringEncodable(key: Text, item: Text)
    requires Utf8.Encodable(key) && Utf8.Encodable(item)
    ensures Utf8.Encodable(PrintString(key, [COLON] + item))
  {
    CharsEncodable(key, [COLON] + item);
  }

  lemma MarkEncodable(mark: CodePoint, rest: Text)
    requires mark == COMMA || mark == CLOSE_BRACE || mark == CLOSE_BRACKET
    requires Utf8.Encodable(rest)
    ensures Utf8.Encodable([mark] + rest)
  {
  }

  /** Canonical bytes exist for exactly the valid values. */
  lemma CanonicalBytesDefined(rt: Runtime, v: Json)
    requires FloatsRoundTrip(rt)
    ensures CanonicalBytes(rt, v).Ok? <==> Valid(v)
    ensures Valid(v) ==> Utf8.Encodable(Print(rt, v)) && CanonicalBytes(rt, v) == Ok(Utf8.Encode(Print(rt, v)))
  {
    if Valid(v) {
      PrintEncodable(rt, v, []);
    }
  }

  /** Round trip: the strict parser reads every printed value back, whole and unchanged. */
  lemma RoundTrip(rt: Runtime, v: Json)
    requires FloatsRoundTrip(rt) && Valid(v)
    ensures CanonicalBytes(rt, v).Ok?
    ensures StrictLoads(rt, CanonicalBytes(rt, v).value) == Ok(v)
  {
    CanonicalBytesDefined(rt, v);
    var text := Print(rt, v);
    Utf8.DecodeEncode(text);
    ParsePrint(rt, v, []);
    PrintStart(rt, v, []);
    NoBlank(text);
    ToJsonTreeOf(v);
  }

  /** Canonical bytes decide equality, with `true`, `1` and `1.0` kept apart. */
  lemma CanonicalBytesDecideEquality(rt: Runtime, v: Json, w: Json)
    requires FloatsRoundTrip(rt) && Valid(v) && Valid(w)
    ensures CanonicalBytes(rt, v) == CanonicalBytes(rt, w) <==> v == w
  {
    RoundTrip(rt, v);
    RoundTrip(rt, w);
  }

  /** In every dict of the tree, at any depth, the members come in code point order of their keys. */
  ghost predicate KeysAscend(tree: Tree) {
    match tree
    case TArr(items) => forall i | 0 <= i < |items| :: KeysAscend(items[i])
    case TObj(pairs) => Ascends(KeysIn(pairs)) && forall i | 0 <= i < |pairs| :: KeysAscend(pairs[i].1)
    case _ => true
  }

  lemma {:induction false} TreeOfAscends(v: Json)
    ensures KeysAscend(TreeOf(v))
  {
    match v
    case Arr(items) =>
      forall i | 0 <= i < |items| ensures KeysAscend(TreeItems(items)[i]) {
        TreeOfAscends(items[i]);
      }
    case Obj(fields) =>
      var keys := SortedKeys(fields.Keys);
      SortedKeysAscend(fields.Keys);
      assert KeysIn(TreeMembers(v, keys)) == keys;
      forall i | 0 <= i < |keys| ensures KeysAscend(TreeMembers(v, keys)[i].1) {
        assert keys[i] in keys;
        TreeOfAscends(fields[keys[i]]);
      }
    case _ =>
  }

  /** The canonical text spells the value with the keys of every dict in code point order. */
  lemma PrintedKeysAscend(rt: Runtime, v: Json)
    requires FloatsRoundTrip(rt) && Valid(v)
    ensures ReadTree(rt, true, Print(rt, v)).Ok?
    ensures KeysAscend(ReadTree(rt, true, Print(rt, v)).value)
    ensures ToJson(ReadTree(rt, true, Print(rt, v)).value) == v
  {
    ParsePrint(rt, v, []);
    PrintStart(rt, v, []);
    NoBlank(Print(rt, v));
    TreeOfAscends(v);
    ToJsonTreeOf(v);
  }

  // ----- what strict parsing rejects and keeps -----

  /** No object of the tree, at any depth, spells a key twice. */
  ghost predicate NoDuplicateKeys(tree: Tree) {
    match tree
    case TArr(items) => forall i | 0 <= i < |items| :: NoDuplicateKeys(items[i])
    case TObj(pairs) => DistinctKeys(pairs) && forall i | 0 <= i < |pairs| :: NoDuplicateKeys(pairs[i].1)
    case _ => true
  }

  /** The value has one entry for every pair the text spells, at every depth. */
  ghost predicate Keeps(tree: Tree, v: Json) {
    match tree
    case TNull => v == Null
    case TBool(b) => v == Bool(b)
    case TInt(n) => v == Int(n)
    case TFloat(d) => v == Float(d)
    case TStr(t) => v == Str(t)
    case TArr(items) => v.Arr? && |v.items| == |items| && forall i | 0 <= i < |items| :: Keeps(items[i], v.items[i])
    case TObj(pairs) =>
      && v.Obj?
      && |v.fields| == |pairs|
      && forall i | 0 <= i < |pairs| :: pairs[i].0 in v.fields && Keeps(pairs[i].1, v.fields[pairs[i].0])
  }

  lemma {:induction false} NothingIsLost(tree: Tree)
    requires NoDuplicateKeys(tree)
    ensures Keeps(tree, ToJson(tree))
  {
    match tree
    case TArr(items) =>
      forall i | 0 <= i < |items| ensures Keeps(items[i], ToJson(items[i])) {
        NothingIsLost(items[i]);
      }
    case TObj(pairs) =>
      DictSize(Entries(pairs));
      forall i | 0 <= i < |pairs|
        ensures pairs[i].0 in ToJson(tree).fields && Keeps(pairs[i].1, ToJson(tree).fields[pairs[i].0])
      {
        EntryAt(pairs, i);
        DictKeeps(Entries(pairs), i);
        NothingIsLost(pairs[i].1);
      }
    case _ =>
  }

  lemma {:induction false} StrictValue(rt: Runtime, s: Text)
    ensures ParseValue(rt, true, s).Ok? ==>
      ParseValue(rt, false, s) == ParseValue(rt, true, s) && NoDuplicateKeys(ParseValue(rt, true, s).value.0)
    ensures ParseValue(rt, false, s).Ok? && NoDuplicateKeys(ParseValue(rt, false, s).value.0) ==>
      ParseValue(rt, true, s) == ParseValue(rt, false, s)
    decreases |s|, 0
  {
    if s != [] && s[0] == OPEN_BRACE {
      StrictMembers(rt, SkipBlanks(s[1..]));
    } else if s != [] && s[0] == OPEN_BRACKET {
      StrictItems(rt, SkipBlanks(s[1..]));
    }
  }

  lemma {:induction false} StrictItems(rt: Runtime, s: Text)
    ensures ParseItems(rt, true, s).Ok? ==>
      ParseItems(rt, false, s) == ParseItems(rt, true, s) && NoDuplicateKeys(TArr(ParseItems(rt, true, s).value.0))
    ensures ParseItems(rt, false, s).Ok? && NoDuplicateKeys(TArr(ParseItems(rt, false, s).value.0)) ==>
      ParseItems(rt, true, s) == ParseItems(rt, false, s)
    decreases |s|, 1
  {
    StrictValue(rt, s);
    var r := ParseValue(rt, false, s);
    if r.Ok? {
      var after := SkipBlanks(r.value.1);
      ConsItems(r.value.0, []);
      assert [r.value.0] + [] == [r.value.0];
      if after != [] && after[0] == COMMA {
        var more := SkipBlanks(after[1..]);
        StrictItems(rt, more);
        ConsItems(r.value.0, if ParseItems(rt, false, more).Ok? then ParseItems(rt, false, more).value.0 else []);
      }
    }
  }

  lemma ConsItems(item: Tree, items: seq<Tree>)
    ensures NoDuplicateKeys(TArr([item] + items)) <==> NoDuplicateKeys(item) && NoDuplicateKeys(TArr(items))
  {
    assert ([item] + items)[0] == item;
    assert forall i | 0 <= i < |items| :: ([item] + items)[i + 1] == items[i];
  }

  /** Keys aside, the values of the pairs are free of duplicates. */
  ghost predicate CleanValues(pairs: seq<(Text, Tree)>) {
    forall i | 0 <= i < |pairs| :: NoDuplicateKeys(pairs[i].1)
  }

  lemma {:induction false} StrictMembers(rt: Runtime, s: Text)
    ensures ParseMembers(rt, true, s).Ok? ==>
      ParseMembers(rt, false, s) == ParseMembers(rt, true, s) && CleanValues(ParseMembers(rt, true, s).value.0)
    ensures ParseMembers(rt, false, s).Ok? && CleanValues(ParseMembers(rt, false, s).value.0) ==>
      ParseMembers(rt, true, s) == ParseMembers(rt, false, s)
    decreases |s|, 1
  {
    if s != [] && s[0] == QUOTE && ParseString(s[1..]).Ok? {
      var colon := SkipBlanks(ParseString(s[1..]).value.1);
      if colon != [] && colon[0] == COLON {
        var value := SkipBlanks(colon[1..]);
        StrictValue(rt, value);
        var r := ParseValue(rt, false, value);
        if r.Ok? {
          var after := SkipBlanks(r.value.1);
          var pair := (ParseString(s[1..]).value.0, r.value.0);
          ConsMembers(pair, []);
          assert [pair] + [] == [pair];
          if after != [] && after[0] == COMMA {
            var more := SkipBlanks(after[1..]);
            StrictMembers(rt, more);
            ConsMembers(pair, if ParseMembers(rt, false, more).Ok? then ParseMembers(rt, false, more).value.0 else []);
          }
        }
      }
    }
  }

  lemma ConsMembers(pair: (Text, Tree), pairs: seq<(Text, Tree)>)
    ensures CleanValues([pair] + pairs) <==> NoDuplicateKeys(pair.1) && CleanValues(pairs)
  {
    assert ([pair] + pairs)[0] == pair;
    assert forall i | 0 <= i < |pairs| :: ([pair] + pairs)[i + 1] == pairs[i];
  }

  /** Strict parsing accepts a text iff the lenient reader finds one value in it that repeats no
      key at any depth and passes the value check; then it keeps every pair. */
  lemma StrictParsingIsExact(rt: Runtime, text: Text)
    ensures StrictLoadsText(rt, text).Ok? <==>
      var lenient := ReadTree(rt, false, text);
      text != [] && lenient.Ok? && NoDuplicateKeys(lenient.value) && Valid(ToJson(lenient.value))
    ensures StrictLoadsText(rt, text).Ok? ==>
      && Keeps(ReadTree(rt, false, text).value, StrictLoadsText(rt, text).value)
      && Valid(StrictLoadsText(rt, text).value)
  {
    StrictValue(rt, SkipBlanks(text));
    var lenient := ReadTree(rt, false, text);
    if lenient.Ok? && NoDuplicateKeys(lenient.value) {
      NothingIsLost(lenient.value);
    }
  }
}
