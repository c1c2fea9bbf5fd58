/** Query parameters and their canonical form. */
module Queries {
  import opened Base
  import opened Json
  import opened JsonPrint
  import opened Runtimes
  import Utf8

  datatype QueryValue =
    | NoValue
    | Flag(b: bool)
    | Raw(bytes: Bytes)
    | Number(n: int)
    | Real(d: Double)
    | Plain(t: Text)

  /** A parameter as callers give it: one value, or a list or tuple of them. */
  datatype QueryArgument = One(value: QueryValue) | Many(values: seq<QueryValue>)

  type Params = seq<(Text, QueryArgument)>
  type Pairs = seq<(Text, Text)>

  const NOT_UTF8_PARAMETER := Format("query_parameter_not_utf8")

  function ValueText(rt: Runtime, v: QueryValue): Result<Text> {
    match v
    case NoValue => Ok([])
    case Flag(b) => Ok(if b then Lit("true") else Lit("false"))
    case Raw(bytes) =>
      (match Utf8.Decode(bytes)
       case None => Err(NOT_UTF8_PARAMETER)
       case Some(t) => Ok(t))
    case Number(n) => Ok(PrintInt(n))
    case Real(d) => Ok(rt.reprFloat(d))
    case Plain(t) => Ok(t)
  }

  function Values(a: QueryArgument): seq<QueryValue> {
    match a
    case One(v) => [v]
    case Many(vs) => vs
  }

  /** The pairs that one parameter adds. */
  function ArgumentPairs(rt: Runtime, key: Text, values: seq<QueryValue>): Result<Pairs> {
    if values == [] then Ok([])
    else
      var front :- ArgumentPairs(rt, key, values[..|values| - 1]);
      var text :- ValueText(rt, values[|values| - 1]);
      Ok(front + [(key, text)])
  }

  function WirePairs(rt: Runtime, params: Params): Result<Pairs> {
    if params == [] then Ok([])
    else
      var front :- WirePairs(rt, params[..|params| - 1]);
      var (key, argument) := params[|params| - 1];
      var more :- ArgumentPairs(rt, key, Values(argument));
      Ok(front + more)
  }

  /** Every kind of value as the text it becomes. */
  lemma ValueTextSpelledOut(rt: Runtime, b: Bytes, t: Text, n: int, d: Double)
    ensures ValueText(rt, NoValue) == Ok([])
    ensures ValueText(rt, Flag(true)) == Ok(Lit("true")) && ValueText(rt, Flag(false)) == Ok(Lit("false"))
    ensures Utf8.Encodable(t) ==> ValueText(rt, Raw(Utf8.Encode(t))) == Ok(t)
    ensures ValueText(rt, Raw(b)) == Err(Format("query_parameter_not_utf8")) <==> Utf8.Decode(b).None?
    ensures ValueText(rt, Number(n)) == Ok(PrintInt(n)) && ValueText(rt, Real(d)) == Ok(rt.reprFloat(d))
    ensures ValueText(rt, Plain(t)) == Ok(t)
  {
    if Utf8.Encodable(t) {
      Utf8.DecodeEncode(t);
    }
  }

  /** A parameter puts one pair on the wire for each of its values, in order, or fails as the first value
      that has no text. */
  lemma {:induction false} ArgumentByPosition(rt: Runtime, key: Text, values: seq<QueryValue>)
    ensures ArgumentPairs(rt, key, values).Ok? <==> forall i | 0 <= i < |values| :: ValueText(rt, values[i]).Ok?
    ensures ArgumentPairs(rt, key, values).Ok? ==>
      && |ArgumentPairs(rt, key, values).value| == |values|
      && forall i | 0 <= i < |values| ::
           ArgumentPairs(rt, key, values).value[i].0 == key
           && ValueText(rt, values[i]) == Ok(ArgumentPairs(rt, key, values).value[i].1)
    decreases |values|
  {
    if values != [] {
      ArgumentByPosition(rt, key, values[..|values| - 1]);
    }
  }

  /** The parameters go on the wire one after another. */
  lemma {:induction false} WireOfAppend(rt: Runtime, p: Params, q: Params)
    requires WirePairs(rt, p).Ok? && WirePairs(rt, q).Ok?
    ensures WirePairs(rt, p + q) == Ok(WirePairs(rt, p).value + WirePairs(rt, q).value)
    decreases |q|
  {
    if q == [] {
      assert p + q == p && WirePairs(rt, p).value + [] == WirePairs(rt, p).value;
    } else {
      var front := q[..|q| - 1];
      assert (p + q)[..|p + q| - 1] == p + front;
      assert (p + q)[|p + q| - 1] == q[|q| - 1];
      assert WirePairs(rt, front).Ok?;
      WireOfAppend(rt, p, front);
      var more := ArgumentPairs(rt, q[|q| - 1].0, Values(q[|q| - 1].1)).value;
      JoinAgain(WirePairs(rt, p).value, WirePairs(rt, front).value, more);
    }
  }

  lemma JoinAgain<T>(a: seq<T>, b: seq<T>, c: seq<T>)
    ensures (a + b) + c == a + (b + c)
  {
  }

  lemma NothingBefore<T>(a: seq<T>)
    ensures [] + a == a
  {
  }

  lemma WireOfOne(rt: Runtime, key: Text, v: QueryValue, vs: seq<QueryValue>)
    ensures WirePairs(rt, [(key, One(v))]) == ArgumentPairs(rt, key, [v])
    ensures WirePairs(rt, [(key, Many(vs))]) == ArgumentPairs(rt, key, vs)
  {
    assert [(key, One(v))][..0] == [] && [(key, Many(vs))][..0] == [];
    if ArgumentPairs(rt, key, [v]).Ok? {
      NothingBefore(ArgumentPairs(rt, key, [v]).value);
    }
    if ArgumentPairs(rt, key, vs).Ok? {
      NothingBefore(ArgumentPairs(rt, key, vs).value);
    }
  }

  lemma {:induction false} ArgumentFails(rt: Runtime, key: Text, values: seq<QueryValue>, n: nat)
    requires n <= |values| && ArgumentPairs(rt, key, values[..n]).Err?
    ensures ArgumentPairs(rt, key, values) == ArgumentPairs(rt, key, values[..n])
    decreases |values|
  {
    if n < |values| {
      var front := values[..|values| - 1];
      assert front[..n] == values[..n];
      ArgumentFails(rt, key, front, n);
    } else {
      assert values[..n] == values;
    }
  }

  lemma {:induction false} WireFails(rt: Runtime, params: Params, n: nat)
    requires n <= |params| && WirePairs(rt, params[..n]).Err?
    ensures WirePairs(rt, params) == WirePairs(rt, params[..n])
    decreases |params|
  {
    if n < |params| {
      var front := params[..|params| - 1];
      assert front[..n] == params[..n];
      WireFails(rt, front, n);
    } else {
      assert params[..n] == params;
    }
  }

  lemma ArgumentStep(rt: Runtime, key: Text, values: seq<QueryValue>, j: nat)
    requires j < |values| && ArgumentPairs(rt, key, values[..j]).Ok?
    ensures ArgumentPairs(rt, key, values[..j + 1]) ==
      var text := ValueText(rt, values[j]);
      if text.Err? then Err(text.error)
      else Ok(ArgumentPairs(rt, key, values[..j]).value + [(key, text.value)])
  {
    assert values[..j + 1][..j] == values[..j];
  }

  lemma WireStep(rt: Runtime, params: Params, i: nat)
    requires i < |params| && WirePairs(rt, params[..i]).Ok?
    ensures WirePairs(rt, params[..i + 1]) ==
      var more := ArgumentPairs(rt, params[i].0, Values(params[i].1));
      if more.Err? then Err(more.error) else Ok(WirePairs(rt, params[..i]).value + more.value)
  {
    assert params[..i + 1][..i] == params[..i];
  }

  /** `_query_value_pairs`: every value of every parameter, in order, as text. */
  method QueryValuePairs(rt: Runtime, params: Params) returns (r: Result<Pairs>)
    ensures r == WirePairs(rt, params)
  {
    var result: Pairs := [];
    for i := 0 to |params|
      invariant WirePairs(rt, params[..i]) == Ok(result)
    {
      var (key, argument) := params[i];
      var values := Values(argument);
      WireStep(rt, params, i);
      ghost var before := result;
      ghost var added: Pairs := [];
      for j := 0 to |values|
        invariant ArgumentPairs(rt, key, values[..j]) == Ok(added)
        invariant result == before + added
      {
        ArgumentStep(rt, key, values, j);
        var text := ValueText(rt, values[j]);
        if text.Err? {
          ArgumentFails(rt, key, values, j + 1);
          WireFails(rt, params, i + 1);
          return Err(text.error);
        }
        result := result + [(key, text.value)];
        added := added + [(key, text.value)];
      }
      FullPrefix(values);
    }
    FullPrefix(params);
    return Ok(result);
  }

  /** The values of one key, in wire order. */
  function ValuesFor(pairs: Pairs, key: Text): seq<Text> {
    if pairs == [] then []
    else
      var last := pairs[|pairs| - 1];
      ValuesFor(pairs[..|pairs| - 1], key) + if last.0 == key then [last.1] else []
  }

  function KeysOf(pairs: Pairs): set<Text> {
    set p | p in pairs :: p.0
  }

  function Strings(values: seq<Text>): (items: seq<Json>)
    ensures |items| == |values| && forall i | 0 <= i < |values| :: items[i] == Str(values[i])
  {
    seq(|values|, i requires 0 <= i < |values| => Str(values[i]))
  }

  /** One value stands for itself, several stand in a list. */
  function Collapse(values: seq<Text>): Json {
    if |values| == 1 then Str(values[0]) else Arr(Strings(values))
  }

  /** The canonical form of the wire pairs. */
  function Grouped(pairs: Pairs): map<Text, Json> {
    map k | k in KeysOf(pairs) :: Collapse(ValuesFor(pairs, k))
  }

  function CanonicalQuery(rt: Runtime, params: Params): Result<map<Text, Json>> {
    var pairs :- WirePairs(rt, params);
    Ok(Grouped(pairs))
  }

  /** The groups that a prefix of the pairs fills. */
  ghost predicate Gathers(grouped: map<Text, seq<Text>>, pairs: Pairs) {
    && grouped.Keys == KeysOf(pairs)
    && forall k | k in grouped :: grouped[k] == ValuesFor(pairs, k)
  }

  lemma GatherOne(grouped: map<Text, seq<Text>>, pairs: Pairs, i: nat)
    requires i < |pairs| && Gathers(grouped, pairs[..i])
    ensures var (key, value) := pairs[i];
      Gathers(grouped[key := (if key in grouped then grouped[key] else []) + [value]], pairs[..i + 1])
  {
    assert pairs[..i + 1][..i] == pairs[..i];
    assert pairs[..i + 1] == pairs[..i] + [pairs[i]];
    NoValues(pairs[..i], pairs[i].0);
    KeysOfAppend(pairs[..i], pairs[i]);
  }

  lemma KeysOfAppend(pairs: Pairs, p: (Text, Text))
    ensures KeysOf(pairs + [p]) == KeysOf(pairs) + {p.0}
  {
    assert p in pairs + [p];
  }

  /** `canonical_query_params`: group the values by key, then collapse each group. */
  method CanonicalQueryParams(rt: Runtime, params: Params) returns (r: Result<map<Text, Json>>)
    ensures r == CanonicalQuery(rt, params)
  {
    var wire := QueryValuePairs(rt, params);
    if wire.Err? {
      return Err(wire.error);
    }
    var pairs := wire.value;
    var grouped: map<Text, seq<Text>> := map[];
    for i := 0 to |pairs|
      invariant Gathers(grouped, pairs[..i])
    {
      var (key, value) := pairs[i];
      GatherOne(grouped, pairs, i);
      grouped := grouped[key := (if key in grouped then grouped[key] else []) + [value]];
    }
    FullPrefix(pairs);
    var result := CollapseAll(grouped);
    assert result == Grouped(pairs);
    return Ok(result);
  }

  /** The entries that a prefix of the keys has filled in. */
  ghost predicate Fills(result: map<Text, Json>, grouped: map<Text, seq<Text>>, keys: seq<Text>) {
    && (forall k :: k in result <==> k in keys)
    && forall k | k in result :: k in grouped && result[k] == Collapse(grouped[k])
  }

  lemma FillOne(result: map<Text, Json>, grouped: map<Text, seq<Text>>, keys: seq<Text>, i: nat)
    requires i < |keys| && keys[i] in grouped && Fills(result, grouped, keys[..i])
    ensures Fills(result[keys[i] := Collapse(grouped[keys[i]])], grouped, keys[..i + 1])
  {
    assert keys[..i + 1] == keys[..i] + [keys[i]];
  }

  method CollapseAll(grouped: map<Text, seq<Text>>) returns (result: map<Text, Json>)
    ensures result == map k | k in grouped :: Collapse(grouped[k])
  {
    var keys := SortedKeys(grouped.Keys);
    result := map[];
    for i := 0 to |keys|
      invariant Fills(result, grouped, keys[..i])
    {
      assert keys[i] in keys;
      FillOne(result, grouped, keys, i);
      result := result[keys[i] := Collapse(grouped[keys[i]])];
    }
    FullPrefix(keys);
  }

  lemma {:induction false} NoValues(pairs: Pairs, key: Text)
    ensures ValuesFor(pairs, key) == [] <==> key !in KeysOf(pairs)
  {
    if pairs != [] {
      var front, last := pairs[..|pairs| - 1], pairs[|pairs| - 1];
      NoValues(front, key);
      assert pairs == front + [last];
      assert key in KeysOf(pairs) <==> key in KeysOf(front) || last.0 == key;
    }
  }

  lemma CollapseInjective(a: seq<Text>, b: seq<Text>)
    requires Collapse(a) == Collapse(b)
    ensures a == b
  {
    if |a| != 1 {
      assert Strings(a) == Strings(b);
      forall i | 0 <= i < |a| ensures a[i] == b[i] {
        assert Strings(a)[i] == Strings(b)[i];
      }
    }
  }

  lemma SameGroups(p: Pairs, q: Pairs, key: Text)
    requires Grouped(p) == Grouped(q)
    ensures ValuesFor(p, key) == ValuesFor(q, key)
  {
    NoValues(p, key);
    NoValues(q, key);
    assert key in Grouped(p) <==> key in Grouped(q);
    if key in Grouped(p) {
      assert Grouped(p)[key] == Grouped(q)[key];
      CollapseInjective(ValuesFor(p, key), ValuesFor(q, key));
    }
  }

  /** Every key has the same values in the same order in both. */
  ghost predicate SameValues(p: Pairs, q: Pairs) {
    forall k: Text :: ValuesFor(p, k) == ValuesFor(q, k)
  }

  lemma SameValuesSameGroups(p: Pairs, q: Pairs)
    requires SameValues(p, q)
    ensures Grouped(p) == Grouped(q)
  {
    forall k: Text ensures k in KeysOf(p) <==> k in KeysOf(q) {
      NoValues(p, k);
      NoValues(q, k);
    }
    assert Grouped(p).Keys == Grouped(q).Keys;
    forall k | k in Grouped(p) ensures Grouped(p)[k] == Grouped(q)[k] {
      assert ValuesFor(p, k) == ValuesFor(q, k);
    }
  }

  lemma SameGroupsSameValues(p: Pairs, q: Pairs)
    requires Grouped(p) == Grouped(q)
    ensures SameValues(p, q)
  {
    forall k: Text ensures ValuesFor(p, k) == ValuesFor(q, k) {
      SameGroups(p, q, k);
    }
  }

  /** The canonical form is a complete invariant of the wire pairs, so interleaving across
      different keys never shows and nothing else is forgotten. */
  lemma QueryIsCompleteInvariant(p: Pairs, q: Pairs)
    ensures Grouped(p) == Grouped(q) <==> SameValues(p, q)
  {
    if Grouped(p) == Grouped(q) {
      SameGroupsSameValues(p, q);
    }
    if SameValues(p, q) {
      SameValuesSameGroups(p, q);
    }
  }

  /** Pairs of different keys may change places. */
  lemma InterleavingIsInvisible(front: Pairs, a: (Text, Text), b: (Text, Text), back: Pairs)
    requires a.0 != b.0
    ensures Grouped(front + [a, b] + back) == Grouped(front + [b, a] + back)
  {
    forall k: Text ensures ValuesFor(front + [a, b] + back, k) == ValuesFor(front + [b, a] + back, k) {
      ValuesForAppend(front + [a, b], back, k);
      ValuesForAppend(front + [b, a], back, k);
      ValuesForTwo(front, a, b, k);
      ValuesForTwo(front, b, a, k);
    }
    SameValuesSameGroups(front + [a, b] + back, front + [b, a] + back);
  }

  lemma {:induction false} ValuesForAppend(p: Pairs, q: Pairs, key: Text)
    ensures ValuesFor(p + q, key) == ValuesFor(p, key) + ValuesFor(q, key)
  {
    if q == [] {
      assert p + q == p;
    } else {
      var front := q[..|q| - 1];
      assert (p + q)[..|p + q| - 1] == p + front;
      ValuesForAppend(p, front, key);
    }
  }

  lemma ValuesForTwo(front: Pairs, a: (Text, Text), b: (Text, Text), key: Text)
    ensures ValuesFor(front + [a, b], key)
         == ValuesFor(front, key) + (if a.0 == key then [a.1] else []) + (if b.0 == key then [b.1] else [])
  {
    assert (front + [a, b])[..|front| + 1] == front + [a];
    assert (front + [a])[..|front|] == front;
  }

  /** The wire pairs as parameters of one value each. */
  function AsParams(pairs: Pairs): (params: Params)
    ensures |params| == |pairs|
    ensures forall i | 0 <= i < |pairs| :: params[i] == (pairs[i].0, One(Plain(pairs[i].1)))
  {
    seq(|pairs|, i requires 0 <= i < |pairs| => (pairs[i].0, One(Plain(pairs[i].1))))
  }

  /** Text pairs go on the wire as they are. */
  lemma {:induction false} PlainPairs(rt: Runtime, pairs: Pairs)
    ensures WirePairs(rt, AsParams(pairs)) == Ok(pairs)
  {
    if pairs != [] {
      var front, last := pairs[..|pairs| - 1], pairs[|pairs| - 1];
      PlainPairs(rt, front);
      assert AsParams(pairs)[..|pairs| - 1] == AsParams(front);
      PlainArgument(rt, last.0, last.1);
      assert pairs == front + [last];
    }
  }

  lemma PlainArgument(rt: Runtime, key: Text, value: Text)
    ensures ArgumentPairs(rt, key, [Plain(value)]) == Ok([(key, value)])
  {
    var none: Pairs := [];
    assert ArgumentPairs(rt, key, [Plain(value)][..0]) == Ok(none);
    assert none + [(key, value)] == [(key, value)];
  }

  /** Sending the parameters as flat text pairs first changes nothing. */
  lemma FlatteningIsInvisible(rt: Runtime, params: Params)
    requires WirePairs(rt, params).Ok?
    ensures CanonicalQuery(rt, AsParams(WirePairs(rt, params).value)) == CanonicalQuery(rt, params)
  {
    PlainPairs(rt, WirePairs(rt, params).value);
  }

  // ----- canonicalising twice -----

  function TextArgument(v: Json): QueryArgument
    requires IsCollapsed(v)
  {
    match v
    case Str(t) => One(Plain(t))
    case Arr(items) =>
      Many(seq(|items|, i requires 0 <= i < |items| => Plain(items[i].t)))
  }

  /** What a canonical query may hold under a key: a text, or a list of two or more. */
  predicate IsCollapsed(v: Json) {
    v.Str? || (v.Arr? && |v.items| >= 2 && forall i | 0 <= i < |v.items| :: v.items[i].Str?)
  }

  /** A canonical query given back as parameters, in the order of its keys. */
  function QueryAsParams(query: map<Text, Json>, keys: seq<Text>): Params
    requires forall k | k in keys :: k in query && IsCollapsed(query[k])
  {
    if keys == [] then []
    else
      var last := keys[|keys| - 1];
      assert last in keys;
      assert forall k | k in keys[..|keys| - 1] :: k in keys;
      QueryAsParams(query, keys[..|keys| - 1]) + [(last, TextArgument(query[last]))]
  }

  function Tagged(key: Text, values: seq<Text>): (pairs: Pairs)
    ensures |pairs| == |values| && forall i | 0 <= i < |values| :: pairs[i] == (key, values[i])
  {
    seq(|values|, i requires 0 <= i < |values| => (key, values[i]))
  }

  function Plains(values: seq<Text>): (arguments: seq<QueryValue>)
    ensures |arguments| == |values| && forall i | 0 <= i < |values| :: arguments[i] == Plain(values[i])
  {
    seq(|values|, i requires 0 <= i < |values| => Plain(values[i]))
  }

  lemma {:induction false} PlainArguments(rt: Runtime, key: Text, values: seq<Text>)
    ensures ArgumentPairs(rt, key, Plains(values)) == Ok(Tagged(key, values))
  {
    if values != [] {
      var front := values[..|values| - 1];
      PlainArguments(rt, key, front);
      assert Plains(values)[..|values| - 1] == Plains(front);
      assert Tagged(key, values) == Tagged(key, front) + [(key, values[|values| - 1])];
    }
  }

  /** The texts that stand in a canonical value. */
  function TextsOf(v: Json): (texts: seq<Text>)
    requires IsCollapsed(v)
    ensures texts != []
  {
    match v
    case Str(t) => [t]
    case Arr(items) => seq(|items|, i requires 0 <= i < |items| => items[i].t)
  }

  lemma CollapseTexts(v: Json)
    requires IsCollapsed(v)
    ensures Collapse(TextsOf(v)) == v
    ensures Values(TextArgument(v)) == Plains(TextsOf(v))
  {
    if v.Arr? {
      assert Strings(TextsOf(v)) == v.items;
    }
  }

  lemma CollapsedArgument(rt: Runtime, key: Text, v: Json)
    requires IsCollapsed(v)
    ensures ArgumentPairs(rt, key, Values(TextArgument(v))) == Ok(Tagged(key, TextsOf(v)))
  {
    CollapseTexts(v);
    PlainArguments(rt, key, TextsOf(v));
  }

  lemma {:induction false} ValuesForTagged(key: Text, values: seq<Text>, other: Text)
    ensures ValuesFor(Tagged(key, values), other) == if other == key then values else []
  {
    if values != [] {
      var front := values[..|values| - 1];
      ValuesForTagged(key, front, other);
      assert Tagged(key, values)[..|values| - 1] == Tagged(key, front);
      assert values == front + [values[|values| - 1]];
    }
  }

  predicate IsCollapsedQuery(query: map<Text, Json>) {
    forall k | k in query :: IsCollapsed(query[k])
  }

  lemma QueryAsParamsStep(rt: Runtime, query: map<Text, Json>, keys: seq<Text>)
    requires IsCollapsedQuery(query) && keys != [] && forall x | x in keys :: x in query
    requires forall x | x in keys[..|keys| - 1] :: x in keys
    requires WirePairs(rt, QueryAsParams(query, keys[..|keys| - 1])).Ok?
    ensures keys[|keys| - 1] in keys
    ensures WirePairs(rt, QueryAsParams(query, keys))
         == Ok(WirePairs(rt, QueryAsParams(query, keys[..|keys| - 1])).value
               + Tagged(keys[|keys| - 1], TextsOf(query[keys[|keys| - 1]])))
  {
    var last := keys[|keys| - 1];
    assert last in keys;
    var front := QueryAsParams(query, keys[..|keys| - 1]);
    var params := QueryAsParams(query, keys);
    assert params[..|params| - 1] == front;
    CollapsedArgument(rt, last, query[last]);
  }

  /** The groups of the pairs that the given-back parameters put on the wire. */
  lemma {:induction false} GivenBack(rt: Runtime, query: map<Text, Json>, keys: seq<Text>, k: Text)
    requires StrictlyIncreasing(keys) && IsCollapsedQuery(query)
    requires forall x | x in keys :: x in query
    ensures WirePairs(rt, QueryAsParams(query, keys)).Ok?
    ensures ValuesFor(WirePairs(rt, QueryAsParams(query, keys)).value, k) == if k in keys then TextsOf(query[k]) else []
  {
    if keys != [] {
      var front, last := keys[..|keys| - 1], keys[|keys| - 1];
      assert forall x | x in front :: x in keys;
      GivenBack(rt, query, front, k);
      QueryAsParamsStep(rt, query, keys);
      var sent := WirePairs(rt, QueryAsParams(query, front)).value;
      ValuesForAppend(sent, Tagged(last, TextsOf(query[last])), k);
      ValuesForTagged(last, TextsOf(query[last]), k);
      assert k in keys <==> k in front || k == last;
      assert last !in front;
    }
  }

  lemma GroupedFrom(pairs: Pairs, query: map<Text, Json>)
    requires IsCollapsedQuery(query)
    requires forall k: Text :: ValuesFor(pairs, k) == if k in query then TextsOf(query[k]) else []
    ensures Grouped(pairs) == query
  {
    forall k: Text ensures k in KeysOf(pairs) <==> k in query {
      NoValues(pairs, k);
    }
    forall k | k in query ensures Grouped(pairs)[k] == query[k] {
      CollapseTexts(query[k]);
    }
  }

  /** Every map of texts and longer text lists is the canonical form of some parameters. */
  lemma CollapsedIsCanonical(rt: Runtime, query: map<Text, Json>)
    requires IsCollapsedQuery(query)
    ensures CanonicalQuery(rt, QueryAsParams(query, SortedKeys(query.Keys))) == Ok(query)
  {
    var keys := SortedKeys(query.Keys);
    SortedKeysIncrease(query.Keys);
    GivenBack(rt, query, keys, []);
    var pairs := WirePairs(rt, QueryAsParams(query, keys)).value;
    forall k: Text ensures ValuesFor(pairs, k) == if k in query then TextsOf(query[k]) else [] {
      GivenBack(rt, query, keys, k);
    }
    GroupedFrom(pairs, query);
  }

  lemma GroupedIsCollapsed(pairs: Pairs)
    ensures IsCollapsedQuery(Grouped(pairs))
  {
    forall k | k in Grouped(pairs) ensures IsCollapsed(Grouped(pairs)[k]) {
      NoValues(pairs, k);
    }
  }

  /** The canonical forms are exactly these maps, and canonicalising one again changes nothing. */
  lemma CanonicalisingTwiceIsInvisible(rt: Runtime, pairs: Pairs)
    ensures IsCollapsedQuery(Grouped(pairs))
    ensures CanonicalQuery(rt, QueryAsParams(Grouped(pairs), SortedKeys(Grouped(pairs).Keys))) == Ok(Grouped(pairs))
  {
    GroupedIsCollapsed(pairs);
    CollapsedIsCanonical(rt, Grouped(pairs));
  }
}
