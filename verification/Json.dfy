/** JSON values as the program holds them, which of them are valid, and the order of keys. */
module Json {
  import opened Base
  import opened Runtimes
  import Utf8

  datatype Json =
    | Null
    | Bool(b: bool)
    | Int(n: int)
    | Float(d: Double)
    | Str(t: Text)
    | Arr(items: seq<Json>)
    | Obj(fields: map<Text, Json>)

  /** `_validate_json_value` accepts exactly these values. */
  predicate Valid(v: Json) {
    match v
    case Float(d) => d.Finite?
    case Str(t) => Utf8.Encodable(t)
    case Arr(items) => forall i | 0 <= i < |items| :: Valid(items[i])
    case Obj(fields) => forall k | k in fields :: Utf8.Encodable(k) && Valid(fields[k])
    case _ => true
  }

  /** `sorted` compares strings by code point. */
  predicate Leq(a: Text, b: Text) {
    a == [] || (b != [] && (a[0] < b[0] || (a[0] == b[0] && Leq(a[1..], b[1..]))))
  }

  lemma LeqTotal(a: Text, b: Text)
    ensures Leq(a, b) || Leq(b, a)
  {
  }

  lemma {:induction false} LeqAntisymmetric(a: Text, b: Text)
    requires Leq(a, b) && Leq(b, a)
    ensures a == b
  {
    if a != [] {
      LeqAntisymmetric(a[1..], b[1..]);
      assert a == [a[0]] + a[1..] && b == [b[0]] + b[1..];
    }
  }

  lemma LeqTransitive(a: Text, b: Text, c: Text)
    requires Leq(a, b) && Leq(b, c)
    ensures Leq(a, c)
  {
  }

  predicate IsLeast(k: Text, s: set<Text>) {
    k in s && forall x | x in s :: Leq(k, x)
  }

  lemma {:induction false} LeastExists(s: set<Text>)
    requires s != {}
    ensures exists k :: IsLeast(k, s)
    decreases |s|
  {
    var x :| x in s;
    var rest := s - {x};
    LeqTotal(x, x);
    if rest == {} {
      assert s == {x};
      assert IsLeast(x, s);
    } else {
      LeastExists(rest);
      var k :| IsLeast(k, rest);
      LeqTotal(x, k);
      var least := if Leq(x, k) then x else k;
      forall y | y in s ensures Leq(least, y) {
        if y != x && Leq(x, k) {
          LeqTransitive(x, k, y);
        }
      }
      assert IsLeast(least, s);
    }
  }

  function Least(s: set<Text>): (k: Text)
    requires s != {}
    ensures IsLeast(k, s)
  {
    LeastExists(s);
    assert forall x, y | IsLeast(x, s) && IsLeast(y, s) :: x == y by {
      forall x, y | IsLeast(x, s) && IsLeast(y, s) ensures x == y {
        LeqAntisymmetric(x, y);
      }
    }
    var k :| IsLeast(k, s);
    k
  }

  /** The keys of a dict in the order `sort_keys` prints them. */
  function SortedKeys(s: set<Text>): (keys: seq<Text>)
    ensures forall k :: k in keys <==> k in s
    ensures |keys| == |s|
    decreases |s|
  {
    if s == {} then [] else var k := Least(s); [k] + SortedKeys(s - {k})
  }

  ghost predicate StrictlyIncreasing(keys: seq<Text>) {
    forall i, j | 0 <= i < j < |keys| :: Leq(keys[i], keys[j]) && keys[i] != keys[j]
  }

  lemma {:induction false} SortedKeysIncrease(s: set<Text>)
    ensures StrictlyIncreasing(SortedKeys(s))
    decreases |s|
  {
    if s != {} {
      SortedKeysIncrease(s - {Least(s)});
      PrependLeast(Least(s), s, SortedKeys(s - {Least(s)}));
    }
  }

  lemma PrependLeast(k: Text, s: set<Text>, rest: seq<Text>)
    requires IsLeast(k, s) && StrictlyIncreasing(rest)
    requires forall x | x in rest :: x in s - {k}
    ensures StrictlyIncreasing([k] + rest)
  {
    var keys := [k] + rest;
    forall i, j | 0 <= i < j < |keys| ensures Leq(keys[i], keys[j]) && keys[i] != keys[j] {
      assert keys[j] == rest[j - 1] && rest[j - 1] in rest;
    }
  }

  /** Code point order, spelled out: a proper prefix, or a smaller character at the first difference. */
  ghost predicate Precedes(a: Text, b: Text) {
    a < b || exists n :: 0 <= n < |a| && n < |b| && a[..n] == b[..n] && a[n] < b[n]
  }

  lemma {:induction false} LeqIsCodePointOrder(a: Text, b: Text)
    ensures Leq(a, b) <==> a == b || Precedes(a, b)
  {
    if a != [] && b != [] && a[0] == b[0] {
      LeqIsCodePointOrder(a[1..], b[1..]);
      PrecedesCons(a, b);
    } else if a != [] && b != [] && a[0] < b[0] {
      assert a[..0] == b[..0];
    }
  }

  lemma PrecedesCons(a: Text, b: Text)
    requires a != [] && b != [] && a[0] == b[0]
    ensures Precedes(a, b) <==> Precedes(a[1..], b[1..])
    ensures a == b <==> a[1..] == b[1..]
  {
    assert a == [a[0]] + a[1..] && b == [b[0]] + b[1..];
    if !(a < b) && Precedes(a, b) {
      var n :| 0 <= n < |a| && n < |b| && a[..n] == b[..n] && a[n] < b[n];
      assert a[1..][..n - 1] == a[..n][1..] && b[1..][..n - 1] == b[..n][1..];
      assert a[1..][n - 1] < b[1..][n - 1];
    }
    if !(a[1..] < b[1..]) && Precedes(a[1..], b[1..]) {
      var n :| 0 <= n < |a[1..]| && n < |b[1..]| && a[1..][..n] == b[1..][..n] && a[1..][n] < b[1..][n];
      assert a[..n + 1] == [a[0]] + a[1..][..n] && b[..n + 1] == [b[0]] + b[1..][..n];
      assert a[n + 1] < b[n + 1];
    }
  }

  /** Each key comes before the next one in code point order. */
  ghost predicate Ascends(keys: seq<Text>) {
    forall i, j | 0 <= i < j < |keys| :: Precedes(keys[i], keys[j])
  }

  lemma SortedKeysAscend(s: set<Text>)
    ensures Ascends(SortedKeys(s))
    ensures forall k :: k in SortedKeys(s) <==> k in s
  {
    var keys := SortedKeys(s);
    SortedKeysIncrease(s);
    forall i, j | 0 <= i < j < |keys| ensures Precedes(keys[i], keys[j]) {
      LeqIsCodePointOrder(keys[i], keys[j]);
    }
  }
}
