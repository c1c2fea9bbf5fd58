/** Canonical text is compact: no text that the strict reader accepts for a value is shorter. */
module JsonShortest {
  import opened Base
  import opened Json
  import opened Runtimes
  import opened JsonPrint
  import opened JsonParse
  import opened JsonRoundTrip
  import opened JsonTheorems

  /** No float occurs in the value: `repr` writes `10.0` where `1e1` would do. */
  predicate NoFloats(v: Json) {
    match v
    case Float(_) => false
    case Arr(items) => forall i | 0 <= i < |items| :: NoFloats(items[i])
    case Obj(fields) => forall k | k in fields :: NoFloats(fields[k])
    case _ => true
  }

  function CharsLength(t: Text): nat {
    if t == [] then 0 else |EscapeChar(t[0])| + CharsLength(t[1..])
  }

  /** The length of a value without blanks and needless escapes; floats are not counted. */
  function JsonLength(v: Json): nat
    decreases v, 1, 0
  {
    match v
    case Null => 4
    case Bool(b) => if b then 4 else 5
    case Int(n) => |PrintInt(n)|
    case Float(_) => 0
    case Str(t) => 2 + CharsLength(t)
    case Arr(items) => if items == [] then 2 else 1 + ItemsLength(items)
    case Obj(fields) => if fields == map[] then 2 else 1 + KeysLength(v, SortedKeys(fields.Keys))
  }

  /** Every item with the comma or bracket after it. */
  function ItemsLength(items: seq<Json>): nat
    decreases items, 0, 0
  {
    if items == [] then 0 else JsonLength(items[0]) + 1 + ItemsLength(items[1..])
  }

  /** Every member with its quotes and colon and the comma or brace after it. */
  function KeysLength(v: Json, keys: seq<Text>): nat
    requires v.Obj? && forall k | k in keys :: k in v.fields
    decreases v, 0, |keys|
  {
    if keys == [] then 0
    else CharsLength(keys[0]) + JsonLength(v.fields[keys[0]]) + 4 + KeysLength(v, keys[1..])
  }

  // ----- the printed text has exactly that length -----

  lemma {:induction false} CharsPrinted(t: Text, rest: Text)
    ensures |PrintChars(t, rest)| == CharsLength(t) + 1 + |rest|
  {
    if t != [] {
      CharsPrinted(t[1..], rest);
    }
  }

  lemma {:induction false} ValuePrinted(rt: Runtime, v: Json, rest: Text)
    requires NoFloats(v)
    ensures |PrintValue(rt, v, rest)| == JsonLength(v) + |rest|
    decreases v, 1, 0
  {
    match v
    case Str(t) => CharsPrinted(t, rest);
    case Arr(items) =>
      if items != [] {
        ItemsPrinted(rt, items, rest);
      }
    case Obj(fields) =>
      if fields != map[] {
        MembersPrinted(rt, v, SortedKeys(fields.Keys), rest);
      }
    case _ =>
  }

  lemma {:induction false} ItemsPrinted(rt: Runtime, items: seq<Json>, rest: Text)
    requires items != [] && forall i | 0 <= i < |items| :: NoFloats(items[i])
    ensures |PrintItems(rt, items, rest)| == ItemsLength(items) + |rest|
    decreases items, 0, 0
  {
    if |items| == 1 {
      ValuePrinted(rt, items[0], [CLOSE_BRACKET] + rest);
      assert ItemsLength(items[1..]) == 0;
    } else {
      ItemsPrinted(rt, items[1..], rest);
      ValuePrinted(rt, items[0], [COMMA] + PrintItems(rt, items[1..], rest));
    }
  }

  lemma {:induction false} MembersPrinted(rt: Runtime, v: Json, keys: seq<Text>, rest: Text)
    requires v.Obj? && NoFloats(v) && keys != [] && forall k | k in keys :: k in v.fields
    ensures |PrintMembers(rt, v, keys, rest)| == KeysLength(v, keys) + |rest|
    decreases v, 0, |keys|
  {
    assert keys[0] in keys;
    var after := if |keys| == 1 then [CLOSE_BRACE] + rest else [COMMA] + PrintMembers(rt, v, keys[1..], rest);
    if |keys| == 1 {
      assert KeysLength(v, keys[1..]) == 0;
    } else {
      MembersPrinted(rt, v, keys[1..], rest);
    }
    ValuePrinted(rt, v.fields[keys[0]], after);
    CharsPrinted(keys[0], [COLON] + PrintValue(rt, v.fields[keys[0]], after));
  }

  // ----- what the reader consumes is at least that long -----

  lemma EscapeConsumes(s: Text)
    requires ParseEscape(s).Ok?
    ensures |EscapeChar(ParseEscape(s).value.0)| + |ParseEscape(s).value.1| <= 1 + |s|
  {
  }

  lemma {:induction false} StringConsumes(s: Text)
    requires ParseString(s).Ok?
    ensures CharsLength(ParseString(s).value.0) + 1 + |ParseString(s).value.1| <= |s|
    decreases |s|
  {
    if s[0] == BACKSLASH {
      var (c, rest) := ParseEscape(s[1..]).value;
      EscapeConsumes(s[1..]);
      StringConsumes(rest);
      ConsTail(c, ParseString(rest).value.0);
    } else if s[0] != QUOTE {
      StringConsumes(s[1..]);
      ConsTail(s[0], ParseString(s[1..]).value.0);
    }
  }

  /** Printing digits again never needs more of them. */
  lemma {:induction false} DigitsShrink(s: Text)
    requires s != [] && AllDigits(s)
    ensures ParseNat(s) >= 0 && |PrintNat(ParseNat(s))| <= |s|
    decreases |s|
  {
    var front := s[..|s| - 1];
    if front == [] {
      assert ParseNat(front) == 0;
    } else {
      DigitsShrink(front);
      assert ParseNat(s) / 10 == ParseNat(front);
    }
  }

  lemma SignedShrinks(sign: nat, t: Text)
    requires sign == SignRun(t) && sign < |t| && AllDigits(t[sign..])
    ensures |PrintInt(ParseInt(t))| <= |t|
  {
    DigitsShrink(t[sign..]);
    assert t[0..] == t;
  }

  lemma TakeDrop<T>(s: seq<T>, m: nat, n: nat)
    requires m <= n <= |s|
    ensures s[..n][m..] == s[m..][..n - m]
  {
  }

  lemma WholeIsDigits(s: Text)
    requires ScanUnsigned(s).Some? && !ScanUnsigned(s).value.1
    ensures ScanUnsigned(s).value.0 == IntegerRun(s) && AllDigits(s[..IntegerRun(s)])
  {
  }

  lemma IntegerConsumes(s: Text)
    requires ScanNumber(s).Some? && !ScanNumber(s).value.1
    ensures |PrintInt(ParseInt(s[..ScanNumber(s).value.0]))| <= ScanNumber(s).value.0
  {
    var sign := SignRun(s);
    var n := ScanNumber(s).value.0;
    WholeIsDigits(s[sign..]);
    TakeDrop(s, sign, n);
    SignedShrinks(sign, s[..n]);
  }

  /** The same length, measured on what a text spells. */
  function TreeLength(tree: Tree): nat
    decreases tree, 1
  {
    match tree
    case TNull => 4
    case TBool(b) => if b then 4 else 5
    case TInt(n) => |PrintInt(n)|
    case TFloat(_) => 0
    case TStr(t) => 2 + CharsLength(t)
    case TArr(items) => if items == [] then 2 else 1 + TreesLength(items)
    case TObj(pairs) => if pairs == [] then 2 else 1 + PairsLength(pairs)
  }

  function TreesLength(items: seq<Tree>): nat
    decreases items, 0
  {
    if items == [] then 0 else TreeLength(items[0]) + 1 + TreesLength(items[1..])
  }

  function PairsLength(pairs: seq<(Text, Tree)>): nat
    decreases pairs, 0
  {
    if pairs == [] then 0
    else
      assert pairs decreases to pairs[0];
      assert pairs[0] decreases to pairs[0].1;
      CharsLength(pairs[0].0) + TreeLength(pairs[0].1) + 4 + PairsLength(pairs[1..])
  }

  lemma TreesCons(item: Tree, items: seq<Tree>)
    ensures TreesLength([item] + items) == TreeLength(item) + 1 + TreesLength(items)
  {
    ConsTail(item, items);
  }

  lemma PairsCons(pair: (Text, Tree), pairs: seq<(Text, Tree)>)
    ensures PairsLength([pair] + pairs) == CharsLength(pair.0) + TreeLength(pair.1) + 4 + PairsLength(pairs)
  {
    ConsTail(pair, pairs);
  }

  lemma NumberConsumes(rt: Runtime, s: Text)
    requires ScanNumber(s).Some?
    ensures var (n, isFloat) := ScanNumber(s).value;
      TreeLength(if isFloat then TFloat(rt.parseFloat(s[..n])) else TInt(ParseInt(s[..n]))) + |s[n..]| <= |s|
  {
    var (n, isFloat) := ScanNumber(s).value;
    if isFloat {
      assert TreeLength(TFloat(rt.parseFloat(s[..n]))) == 0;
    } else {
      IntegerConsumes(s);
      IntegerLength(ParseInt(s[..n]));
    }
  }

  lemma IntegerLength(n: int)
    ensures TreeLength(TInt(n)) == |PrintInt(n)|
  {
  }

  lemma ScalarConsumes(rt: Runtime, s: Text)
    requires ParseScalar(rt, s).Ok?
    ensures TreeLength(ParseScalar(rt, s).value.0) + |ParseScalar(rt, s).value.1| <= |s|
  {
    if StartsWith(s, Lit("null")) || StartsWith(s, Lit("true")) {
      assert ParseScalar(rt, s).value.1 == s[4..];
    } else if StartsWith(s, Lit("false")) {
      assert ParseScalar(rt, s).value.1 == s[5..];
    } else {
      NumberConsumes(rt, s);
    }
  }

  lemma PairsTree(pairs: seq<(Text, Tree)>)
    requires pairs != []
    ensures TreeLength(TObj(pairs)) == 1 + PairsLength(pairs)
  {
  }

  lemma ItemsTree(items: seq<Tree>)
    requires items != []
    ensures TreeLength(TArr(items)) == 1 + TreesLength(items)
  {
  }

  lemma {:induction false} ValueConsumes(rt: Runtime, strict: bool, s: Text)
    requires ParseValue(rt, strict, s).Ok?
    ensures TreeLength(ParseValue(rt, strict, s).value.0) + |ParseValue(rt, strict, s).value.1| <= |s|
    decreases |s|, 0
  {
    if s[0] == QUOTE {
      StringConsumes(s[1..]);
    } else if s[0] == OPEN_BRACE {
      var body := SkipBlanks(s[1..]);
      if body[0] != CLOSE_BRACE {
        MembersConsume(rt, strict, body);
        PairsTree(ParseMembers(rt, strict, body).value.0);
      }
    } else if s[0] == OPEN_BRACKET {
      var body := SkipBlanks(s[1..]);
      if body[0] != CLOSE_BRACKET {
        ItemsConsume(rt, strict, body);
        ItemsTree(ParseItems(rt, strict, body).value.0);
      }
    } else {
      ScalarConsumes(rt, s);
    }
  }

  lemma {:induction false} ItemsConsume(rt: Runtime, strict: bool, s: Text)
    requires ParseItems(rt, strict, s).Ok?
    ensures ParseItems(rt, strict, s).value.0 != []
    ensures TreesLength(ParseItems(rt, strict, s).value.0) + |ParseItems(rt, strict, s).value.1| <= |s|
    decreases |s|, 1
  {
    ValueConsumes(rt, strict, s);
    var (item, rest) := ParseValue(rt, strict, s).value;
    var after := SkipBlanks(rest);
    if after[0] == CLOSE_BRACKET {
      TreesCons(item, []);
      assert [item] + [] == [item];
    } else {
      var more := SkipBlanks(after[1..]);
      ItemsConsume(rt, strict, more);
      TreesCons(item, ParseItems(rt, strict, more).value.0);
    }
  }

  lemma {:induction false} MembersConsume(rt: Runtime, strict: bool, s: Text)
    requires ParseMembers(rt, strict, s).Ok?
    ensures ParseMembers(rt, strict, s).value.0 != []
    ensures PairsLength(ParseMembers(rt, strict, s).value.0) + |ParseMembers(rt, strict, s).value.1| <= |s|
    decreases |s|, 1
  {
    StringConsumes(s[1..]);
    var (key, rest) := ParseString(s[1..]).value;
    var value := SkipBlanks(SkipBlanks(rest)[1..]);
    ValueConsumes(rt, strict, value);
    var (item, rest2) := ParseValue(rt, strict, value).value;
    var after := SkipBlanks(rest2);
    if after[0] == CLOSE_BRACE {
      PairsCons((key, item), []);
      assert [(key, item)] + [] == [(key, item)];
    } else {
      var more := SkipBlanks(after[1..]);
      MembersConsume(rt, strict, more);
      PairsCons((key, item), ParseMembers(rt, strict, more).value.0);
    }
  }

  // ----- the order of members does not change the length -----

  lemma {:induction false} KeysLengthWithout(v: Json, keys: seq<Text>, i: nat)
    requires v.Obj? && i < |keys| && forall k | k in keys :: k in v.fields
    ensures forall k | k in keys[..i] + keys[i + 1..] :: k in v.fields
    ensures KeysLength(v, keys)
         == CharsLength(keys[i]) + JsonLength(v.fields[keys[i]]) + 4 + KeysLength(v, keys[..i] + keys[i + 1..])
    decreases i
  {
    assert forall k | k in keys[..i] + keys[i + 1..] :: k in keys;
    if i == 0 {
      assert keys[..0] + keys[1..] == keys[1..];
    } else {
      var tail := keys[1..];
      KeysLengthWithout(v, tail, i - 1);
      var without := keys[..i] + keys[i + 1..];
      assert without[0] == keys[0] && without[1..] == tail[..i - 1] + tail[i..];
    }
  }

  ghost predicate AllDifferent(keys: seq<Text>) {
    forall i, j | 0 <= i < j < |keys| :: keys[i] != keys[j]
  }

  lemma WithoutIsTail(a: seq<Text>, b: seq<Text>, i: nat)
    requires a != [] && AllDifferent(a) && AllDifferent(b) && i < |b| && b[i] == a[0]
    requires forall k :: k in a <==> k in b
    ensures AllDifferent(b[..i] + b[i + 1..])
    ensures forall k :: k in a[1..] <==> k in b[..i] + b[i + 1..]
  {
    var c := b[..i] + b[i + 1..];
    forall k ensures k in a[1..] <==> k in c {
      assert k in a <==> k == a[0] || k in a[1..] by {
        assert a == [a[0]] + a[1..];
      }
      assert k in b <==> k == b[i] || k in c by {
        assert b == b[..i] + [b[i]] + b[i + 1..];
      }
      assert a[0] !in a[1..] && b[i] !in c;
    }
  }

  lemma {:induction false} OrderIsInvisible(v: Json, a: seq<Text>, b: seq<Text>)
    requires v.Obj? && AllDifferent(a) && AllDifferent(b) && |a| == |b|
    requires forall k :: k in a <==> k in b
    requires forall k | k in a :: k in v.fields
    ensures KeysLength(v, a) == KeysLength(v, b)
    decreases |a|
  {
    if a != [] {
      assert a[0] in b;
      var i :| 0 <= i < |b| && b[i] == a[0];
      KeysLengthWithout(v, b, i);
      WithoutIsTail(a, b, i);
      OrderIsInvisible(v, a[1..], b[..i] + b[i + 1..]);
    }
  }

  /** Spelled pair by pair or taken key by key, the members are equally long. */
  lemma {:induction false} PairsAsKeys(pairs: seq<(Text, Tree)>, v: Json)
    requires v.Obj?
    requires forall i | 0 <= i < |pairs| ::
      && pairs[i].0 in v.fields
      && TreeLength(pairs[i].1) == JsonLength(v.fields[pairs[i].0])
    ensures PairsLength(pairs) == KeysLength(v, KeysIn(pairs))
  {
    if pairs != [] {
      PairsAsKeys(pairs[1..], v);
      assert KeysIn(pairs)[1..] == KeysIn(pairs[1..]);
    }
  }

  lemma {:induction false} TreesAsItems(items: seq<Tree>, values: seq<Json>)
    requires |items| == |values|
    requires forall i | 0 <= i < |items| :: TreeLength(items[i]) == JsonLength(values[i])
    ensures TreesLength(items) == ItemsLength(values)
  {
    if items != [] {
      TreesAsItems(items[1..], values[1..]);
    }
  }

  lemma {:induction false} TreeLengthOf(tree: Tree, v: Json)
    requires NoDuplicateKeys(tree) && Keeps(tree, v)
    ensures TreeLength(tree) == JsonLength(v)
  {
    match tree
    case TArr(items) =>
      forall i | 0 <= i < |items| ensures TreeLength(items[i]) == JsonLength(v.items[i]) {
        TreeLengthOf(items[i], v.items[i]);
      }
      TreesAsItems(items, v.items);
    case TObj(pairs) =>
      forall i | 0 <= i < |pairs| ensures TreeLength(pairs[i].1) == JsonLength(v.fields[pairs[i].0]) {
        TreeLengthOf(pairs[i].1, v.fields[pairs[i].0]);
      }
      MembersLength(pairs, v);
    case _ =>
  }

  lemma MembersLength(pairs: seq<(Text, Tree)>, v: Json)
    requires v.Obj? && DistinctKeys(pairs) && |v.fields| == |pairs|
    requires forall i | 0 <= i < |pairs| ::
      pairs[i].0 in v.fields && TreeLength(pairs[i].1) == JsonLength(v.fields[pairs[i].0])
    ensures TreeLength(TObj(pairs)) == JsonLength(v)
  {
    PairsAsKeys(pairs, v);
    SameKeys(pairs, v.fields);
    OrderIsInvisible(v, KeysIn(pairs), SortedKeys(v.fields.Keys));
    ObjectLength(v);
    assert pairs == [] <==> v.fields == map[];
  }

  lemma ObjectLength(v: Json)
    requires v.Obj?
    ensures JsonLength(v) == if v.fields == map[] then 2 else 1 + KeysLength(v, SortedKeys(v.fields.Keys))
  {
  }

  lemma SameKeys(pairs: seq<(Text, Tree)>, fields: map<Text, Json>)
    requires DistinctKeys(pairs) && |fields| == |pairs|
    requires forall i | 0 <= i < |pairs| :: pairs[i].0 in fields
    ensures AllDifferent(KeysIn(pairs)) && AllDifferent(SortedKeys(fields.Keys))
    ensures |KeysIn(pairs)| == |SortedKeys(fields.Keys)|
    ensures forall k :: k in KeysIn(pairs) <==> k in SortedKeys(fields.Keys)
    ensures forall k | k in KeysIn(pairs) :: k in fields
  {
    KeysAreAll(pairs, fields);
    SortedAllDifferent(fields.Keys);
  }

  lemma SortedAllDifferent(s: set<Text>)
    ensures AllDifferent(SortedKeys(s))
  {
    SortedKeysIncrease(s);
  }

  function KeySet(pairs: seq<(Text, Tree)>): set<Text> {
    set k | k in KeysIn(pairs)
  }

  lemma {:induction false} KeyCount(pairs: seq<(Text, Tree)>)
    requires DistinctKeys(pairs)
    ensures |KeySet(pairs)| == |pairs|
  {
    if pairs != [] {
      var front, last := pairs[..|pairs| - 1], pairs[|pairs| - 1];
      KeyCount(front);
      assert KeysIn(pairs) == KeysIn(front) + [last.0];
      assert KeySet(pairs) == KeySet(front) + {last.0};
    }
  }

  lemma SubsetOfSameSize<T>(a: set<T>, b: set<T>)
    requires a <= b && |a| == |b|
    ensures a == b
  {
    assert |b - a| == 0;
  }

  /** As many different keys as the dict has entries are all of its keys. */
  lemma KeysAreAll(pairs: seq<(Text, Tree)>, fields: map<Text, Json>)
    requires DistinctKeys(pairs) && |fields| == |pairs|
    requires forall i | 0 <= i < |pairs| :: pairs[i].0 in fields
    ensures forall k :: k in KeysIn(pairs) <==> k in fields
  {
    KeyCount(pairs);
    assert |fields.Keys| == |fields|;
    SubsetOfSameSize(KeySet(pairs), fields.Keys);
    assert forall k :: k in KeysIn(pairs) <==> k in KeySet(pairs);
  }

  /** Whatever text the strict reader accepts, the canonical text of its value is no longer. */
  lemma CanonicalTextIsShortest(rt: Runtime, text: Text)
    requires StrictLoadsText(rt, text).Ok? && NoFloats(StrictLoadsText(rt, text).value)
    ensures |Print(rt, StrictLoadsText(rt, text).value)| <= |text|
  {
    var v := StrictLoadsText(rt, text).value;
    var tree := ReadTree(rt, true, text).value;
    StrictValue(rt, SkipBlanks(text));
    ValueConsumes(rt, true, SkipBlanks(text));
    NothingIsLost(tree);
    TreeLengthOf(tree, v);
    ValuePrinted(rt, v, []);
  }
}
