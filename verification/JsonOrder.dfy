/** Printing dicts as they are held, member after member, with `sort_keys`: the order in which a
    value was filled, at any depth, never reaches the text. */
module JsonOrder {
  import opened Base
  import opened Json
  import opened Runtimes
  import opened JsonPrint
  import opened JsonParse
  import opened JsonRoundTrip
  import opened JsonTheorems
  import opened JsonShortest

  type Members = seq<(Text, Tree)>

  /** `sorted(items)`: one insertion after another. */
  function InsertMember(p: (Text, Tree), sorted: Members): (r: Members)
    ensures |r| == |sorted| + 1
    ensures forall x :: x in r <==> x == p || x in sorted
  {
    if sorted == [] then [p]
    else if Leq(p.0, sorted[0].0) then [p] + sorted
    else
      assert sorted == [sorted[0]] + sorted[1..];
      [sorted[0]] + InsertMember(p, sorted[1..])
  }

  function SortMembers(pairs: Members): (r: Members)
    ensures |r| == |pairs|
    ensures forall x :: x in r <==> x in pairs
  {
    if pairs == [] then []
    else
      assert pairs == [pairs[0]] + pairs[1..];
      InsertMember(pairs[0], SortMembers(pairs[1..]))
  }

  /** A value with the members of every dict in it sorted. */
  function SortTree(tree: Tree): Tree
    decreases tree, 1
  {
    match tree
    case TArr(items) => TArr(SortItems(items))
    case TObj(pairs) => TObj(SortMembers(SortEach(pairs)))
    case _ => tree
  }

  function SortItems(items: seq<Tree>): (r: seq<Tree>)
    ensures |r| == |items| && forall i | 0 <= i < |items| :: r[i] == SortTree(items[i])
    decreases items, 0
  {
    if items == [] then [] else [SortTree(items[0])] + SortItems(items[1..])
  }

  function SortEach(pairs: Members): (r: Members)
    ensures |r| == |pairs| && forall i | 0 <= i < |pairs| :: r[i].0 == pairs[i].0
    decreases pairs, 0
  {
    if pairs == [] then []
    else
      assert pairs decreases to pairs[0];
      assert pairs[0] decreases to pairs[0].1;
      [(pairs[0].0, SortTree(pairs[0].1))] + SortEach(pairs[1..])
  }

  lemma {:induction false} SortedEntryAt(pairs: Members, i: nat)
    requires i < |pairs|
    ensures SortEach(pairs)[i] == (pairs[i].0, SortTree(pairs[i].1))
  {
    if i > 0 {
      SortedEntryAt(pairs[1..], i - 1);
    }
  }

  /** The text of a value, its members in the order in which it holds them, then `rest`. */
  function PrintTree(rt: Runtime, tree: Tree, rest: Text): Text
    decreases tree, 1
  {
    match tree
    case TNull => Lit("null") + rest
    case TBool(b) => (if b then Lit("true") else Lit("false")) + rest
    case TInt(n) => PrintInt(n) + rest
    case TFloat(d) => rt.reprFloat(d) + rest
    case TStr(t) => PrintString(t, rest)
    case TArr(items) => [OPEN_BRACKET] + if items == [] then [CLOSE_BRACKET] + rest else PrintTrees(rt, items, rest)
    case TObj(pairs) => [OPEN_BRACE] + if pairs == [] then [CLOSE_BRACE] + rest else PrintPairs(rt, pairs, rest)
  }

  function PrintTrees(rt: Runtime, items: seq<Tree>, rest: Text): Text
    requires items != []
    decreases items, 0
  {
    PrintTree(rt, items[0],
      if |items| == 1 then [CLOSE_BRACKET] + rest else [COMMA] + PrintTrees(rt, items[1..], rest))
  }

  function PrintPairs(rt: Runtime, pairs: Members, rest: Text): Text
    requires pairs != []
    decreases pairs, 0
  {
    assert pairs decreases to pairs[0];
    assert pairs[0] decreases to pairs[0].1;
    var after := if |pairs| == 1 then [CLOSE_BRACE] + rest else [COMMA] + PrintPairs(rt, pairs[1..], rest);
    PrintString(pairs[0].0, [COLON] + PrintTree(rt, pairs[0].1, after))
  }

  /** `json.dumps(value, sort_keys=True, ..)` on dicts that keep their insertion order. */
  function Dumps(rt: Runtime, tree: Tree): Text {
    PrintTree(rt, SortTree(tree), [])
  }

  // ----- sorting -----

  ghost predicate InOrder(pairs: Members) {
    forall i, j | 0 <= i < j < |pairs| :: Leq(pairs[i].0, pairs[j].0) && pairs[i].0 != pairs[j].0
  }

  lemma ConsInOrder(p: (Text, Tree), rest: Members)
    requires InOrder(rest) && forall x | x in rest :: Leq(p.0, x.0) && p.0 != x.0
    ensures InOrder([p] + rest)
  {
    var all := [p] + rest;
    forall i, j | 0 <= i < j < |all| ensures Leq(all[i].0, all[j].0) && all[i].0 != all[j].0 {
      assert all[j] == rest[j - 1] && rest[j - 1] in rest;
    }
  }

  lemma FirstIsLeast(sorted: Members)
    requires sorted != [] && InOrder(sorted)
    ensures forall x | x in sorted[1..] :: Leq(sorted[0].0, x.0) && sorted[0].0 != x.0
  {
    forall x | x in sorted[1..] ensures Leq(sorted[0].0, x.0) && sorted[0].0 != x.0 {
      var i :| 0 <= i < |sorted[1..]| && sorted[1..][i] == x;
      assert sorted[i + 1] == x;
    }
  }

  lemma {:induction false} InsertInOrder(p: (Text, Tree), sorted: Members)
    requires InOrder(sorted) && forall x | x in sorted :: x.0 != p.0
    ensures InOrder(InsertMember(p, sorted))
  {
    if sorted != [] {
      FirstIsLeast(sorted);
      assert sorted == [sorted[0]] + sorted[1..];
      LeqTotal(p.0, sorted[0].0);
      if Leq(p.0, sorted[0].0) {
        forall x | x in sorted ensures Leq(p.0, x.0) {
          if x != sorted[0] {
            LeqTransitive(p.0, sorted[0].0, x.0);
          }
        }
        ConsInOrder(p, sorted);
      } else {
        InsertInOrder(p, sorted[1..]);
        ConsInOrder(sorted[0], InsertMember(p, sorted[1..]));
      }
    }
  }

  lemma {:induction false} SortedInOrder(pairs: Members)
    requires DistinctKeys(pairs)
    ensures InOrder(SortMembers(pairs))
  {
    if pairs != [] {
      SortedInOrder(pairs[1..]);
      forall x | x in SortMembers(pairs[1..]) ensures x.0 != pairs[0].0 {
        var i :| 0 <= i < |pairs[1..]| && pairs[1..][i] == x;
        assert pairs[i + 1] == x;
      }
      InsertInOrder(pairs[0], SortMembers(pairs[1..]));
    }
  }

  /** There is only one way to list a set of keys in increasing order. */
  lemma {:induction false} SortedOnce(a: seq<Text>, b: seq<Text>)
    requires StrictlyIncreasing(a) && StrictlyIncreasing(b) && |a| == |b|
    requires forall k :: k in a <==> k in b
    ensures a == b
  {
    if a != [] {
      SameFirst(a, b);
      TailsAgree(a, b);
      SortedOnce(a[1..], b[1..]);
      assert a == [a[0]] + a[1..] && b == [b[0]] + b[1..];
    }
  }

  lemma SameFirst(a: seq<Text>, b: seq<Text>)
    requires StrictlyIncreasing(a) && StrictlyIncreasing(b) && a != [] && b != []
    requires forall k :: k in a <==> k in b
    ensures a[0] == b[0]
  {
    assert a[0] in b && b[0] in a;
    var i :| 0 <= i < |b| && b[i] == a[0];
    var j :| 0 <= j < |a| && a[j] == b[0];
    if i > 0 && j > 0 {
      LeqAntisymmetric(a[0], b[0]);
    }
  }

  lemma TailsAgree(a: seq<Text>, b: seq<Text>)
    requires StrictlyIncreasing(a) && StrictlyIncreasing(b) && a != [] && b != [] && a[0] == b[0]
    requires forall k :: k in a <==> k in b
    ensures forall k :: k in a[1..] <==> k in b[1..]
  {
    InTail(a);
    InTail(b);
  }

  lemma InTail(a: seq<Text>)
    requires StrictlyIncreasing(a) && a != []
    ensures forall k :: k in a[1..] <==> k in a && k != a[0]
  {
    assert a == [a[0]] + a[1..];
  }

  // ----- the sorted dict is the canonical tree of the value it stands for -----

  lemma NamesInOrder(sorted: Members)
    requires InOrder(sorted)
    ensures StrictlyIncreasing(KeysIn(sorted)) && DistinctKeys(sorted)
  {
  }

  /** A member of the canonical tree of an object. */
  predicate IsMemberOf(v: Json, x: (Text, Tree)) {
    v.Obj? && x.0 in v.fields && x.1 == TreeOf(v.fields[x.0])
  }

  lemma MembersListed(v: Json, sorted: Members, keys: seq<Text>)
    requires v.Obj? && KeysIn(sorted) == keys && forall k | k in keys :: k in v.fields
    requires forall x | x in sorted :: IsMemberOf(v, x)
    ensures sorted == TreeMembers(v, keys)
  {
    forall i | 0 <= i < |sorted| ensures sorted[i] == TreeMembers(v, keys)[i] {
      assert sorted[i] in sorted && IsMemberOf(v, sorted[i]) && sorted[i].0 == keys[i];
    }
  }

  lemma MembersAgree(v: Json, sorted: Members)
    requires v.Obj? && InOrder(sorted) && |sorted| == |v.fields|
    requires forall x | x in sorted :: IsMemberOf(v, x)
    ensures sorted == TreeMembers(v, SortedKeys(v.fields.Keys))
  {
    var keys := SortedKeys(v.fields.Keys);
    SortedKeysIncrease(v.fields.Keys);
    NamesInOrder(sorted);
    forall i | 0 <= i < |sorted| ensures sorted[i].0 in v.fields {
      assert sorted[i] in sorted && IsMemberOf(v, sorted[i]);
    }
    KeysAreAll(sorted, v.fields);
    SortedOnce(KeysIn(sorted), keys);
    MembersListed(v, sorted, keys);
  }

  /** Sorting at every depth gives exactly the members in key order, each with its own value. */
  lemma {:induction false} SortedIsCanonical(tree: Tree)
    requires NoDuplicateKeys(tree)
    ensures SortTree(tree) == TreeOf(ToJson(tree))
  {
    match tree
    case TArr(items) =>
      forall i | 0 <= i < |items| ensures SortTree(items[i]) == TreeOf(ToJson(items[i])) {
        SortedIsCanonical(items[i]);
      }
      assert SortItems(items) == TreeItems(ToJson(tree).items);
    case TObj(pairs) =>
      forall i | 0 <= i < |pairs| ensures SortsWell(pairs[i].1) {
        SortedIsCanonical(pairs[i].1);
      }
      SortedDict(pairs, ToJson(tree));
    case _ =>
  }

  /** Sorting this value gives its canonical tree. */
  ghost predicate SortsWell(tree: Tree) {
    SortTree(tree) == TreeOf(ToJson(tree))
  }

  lemma SortedDict(pairs: Members, v: Json)
    requires DistinctKeys(pairs) && v == Obj(DictOf(Entries(pairs)))
    requires forall i | 0 <= i < |pairs| :: SortsWell(pairs[i].1)
    ensures SortMembers(SortEach(pairs)) == TreeMembers(v, SortedKeys(v.fields.Keys))
  {
    DictSize(Entries(pairs));
    forall x | x in SortEach(pairs) ensures IsMemberOf(v, x) {
      var i :| 0 <= i < |pairs| && SortEach(pairs)[i] == x;
      SortedMember(pairs, v, i);
    }
    EachDistinct(pairs, SortEach(pairs));
    SortedInOrder(SortEach(pairs));
    MembersAgree(v, SortMembers(SortEach(pairs)));
  }

  lemma EachDistinct(pairs: Members, each: Members)
    requires DistinctKeys(pairs) && |each| == |pairs| && forall i | 0 <= i < |pairs| :: each[i].0 == pairs[i].0
    ensures DistinctKeys(each)
  {
    forall i, j | 0 <= i < j < |each| ensures each[i].0 != each[j].0 {
      assert pairs[i].0 != pairs[j].0;
    }
  }

  lemma SortedMember(pairs: Members, v: Json, i: nat)
    requires DistinctKeys(pairs) && v == Obj(DictOf(Entries(pairs))) && i < |pairs|
    requires SortsWell(pairs[i].1)
    ensures IsMemberOf(v, SortEach(pairs)[i])
  {
    SortedEntryAt(pairs, i);
    EntryAt(pairs, i);
    DictKeeps(Entries(pairs), i);
  }

  // ----- printing the canonical tree is printing the value -----

  lemma {:induction false} PrintTreeOf(rt: Runtime, v: Json, rest: Text)
    ensures PrintTree(rt, TreeOf(v), rest) == PrintValue(rt, v, rest)
    decreases v, 1, 0
  {
    match v
    case Arr(items) =>
      if items != [] {
        PrintTreesOf(rt, items, rest);
      }
    case Obj(fields) =>
      if SortedKeys(fields.Keys) != [] {
        PrintPairsOf(rt, v, SortedKeys(fields.Keys), rest);
      }
    case _ =>
  }

  lemma {:induction false} PrintTreesOf(rt: Runtime, items: seq<Json>, rest: Text)
    requires items != []
    ensures PrintTrees(rt, TreeItems(items), rest) == PrintItems(rt, items, rest)
    decreases items, 0, 0
  {
    if |items| == 1 {
      PrintTreeOf(rt, items[0], [CLOSE_BRACKET] + rest);
    } else {
      PrintTreesOf(rt, items[1..], rest);
      assert TreeItems(items)[1..] == TreeItems(items[1..]);
      PrintTreeOf(rt, items[0], [COMMA] + PrintItems(rt, items[1..], rest));
    }
  }

  lemma {:induction false} PrintPairsOf(rt: Runtime, v: Json, keys: seq<Text>, rest: Text)
    requires v.Obj? && keys != [] && forall k | k in keys :: k in v.fields
    ensures PrintPairs(rt, TreeMembers(v, keys), rest) == PrintMembers(rt, v, keys, rest)
    decreases v, 0, |keys|
  {
    assert keys[0] in keys;
    var after := if |keys| == 1 then [CLOSE_BRACE] + rest else [COMMA] + PrintMembers(rt, v, keys[1..], rest);
    if |keys| > 1 {
      PrintPairsOf(rt, v, keys[1..], rest);
      assert TreeMembers(v, keys)[1..] == TreeMembers(v, keys[1..]);
    }
    PrintTreeOf(rt, v.fields[keys[0]], after);
  }

  /** Printing the ordered dicts with `sort_keys` is printing the value they stand for. */
  lemma DumpsIsPrint(rt: Runtime, tree: Tree)
    requires NoDuplicateKeys(tree)
    ensures Dumps(rt, tree) == Print(rt, ToJson(tree))
    ensures KeysAscend(SortTree(tree))
  {
    SortedIsCanonical(tree);
    TreeOfAscends(ToJson(tree));
    PrintTreeOf(rt, ToJson(tree), []);
  }

  // ----- filling in another order -----

  /** The same value, the members of its dicts filled in any order, at every depth. */
  ghost predicate Reordered(a: Tree, b: Tree) {
    match a
    case TArr(items) => b.TArr? && |items| == |b.items| && forall i | 0 <= i < |items| :: Reordered(items[i], b.items[i])
    case TObj(pairs) =>
      && b.TObj? && |pairs| == |b.pairs|
      && forall i | 0 <= i < |pairs| :: exists j ::
           0 <= j < |b.pairs| && b.pairs[j].0 == pairs[i].0 && Reordered(pairs[i].1, b.pairs[j].1)
    case _ => a == b
  }

  lemma {:induction false} ReorderedSameValue(a: Tree, b: Tree)
    requires NoDuplicateKeys(a) && NoDuplicateKeys(b) && Reordered(a, b)
    ensures ToJson(a) == ToJson(b)
  {
    match a
    case TArr(items) =>
      forall i | 0 <= i < |items| ensures ToJson(items[i]) == ToJson(b.items[i]) {
        ReorderedSameValue(items[i], b.items[i]);
      }
    case TObj(pairs) =>
      forall i | 0 <= i < |pairs| ensures HoldsMember(b.pairs, pairs[i].0, ToJson(pairs[i].1)) {
        var j :| 0 <= j < |b.pairs| && b.pairs[j].0 == pairs[i].0 && Reordered(pairs[i].1, b.pairs[j].1);
        ReorderedSameValue(pairs[i].1, b.pairs[j].1);
      }
      SameDict(pairs, b.pairs);
    case _ =>
  }

  lemma SameDict(p: Members, q: Members)
    requires DistinctKeys(p) && DistinctKeys(q) && |p| == |q|
    requires forall i | 0 <= i < |p| :: HoldsMember(q, p[i].0, ToJson(p[i].1))
    ensures DictOf(Entries(p)) == DictOf(Entries(q))
  {
    DictSize(Entries(p));
    DictSize(Entries(q));
    forall k | k in DictOf(Entries(p)) ensures k in DictOf(Entries(q)) && DictOf(Entries(q))[k] == DictOf(Entries(p))[k] {
      var i := DictSource(Entries(p), k);
      EntryAt(p, i);
      MemberIsKept(q, k, DictOf(Entries(p))[k]);
    }
    SameSizeSameDict(DictOf(Entries(p)), DictOf(Entries(q)));
  }

  /** Some member has this key and stands for this value. */
  ghost predicate HoldsMember(q: Members, k: Text, v: Json) {
    exists j :: 0 <= j < |q| && q[j].0 == k && ToJson(q[j].1) == v
  }

  lemma MemberIsKept(q: Members, k: Text, v: Json)
    requires DistinctKeys(q) && HoldsMember(q, k, v)
    ensures k in DictOf(Entries(q)) && DictOf(Entries(q))[k] == v
  {
    var j :| 0 <= j < |q| && q[j].0 == k && ToJson(q[j].1) == v;
    EntryAt(q, j);
    DictKeeps(Entries(q), j);
  }

  lemma SameSizeSameDict(a: map<Text, Json>, b: map<Text, Json>)
    requires |a| == |b| && forall k | k in a :: k in b && b[k] == a[k]
    ensures a == b
  {
    assert |a.Keys| == |a| && |b.Keys| == |b|;
    SubsetOfSameSize(a.Keys, b.Keys);
  }

  /** The order in which dicts were filled, at any depth, does not reach the text. */
  lemma InsertionOrderIsInvisible(rt: Runtime, a: Tree, b: Tree)
    requires NoDuplicateKeys(a) && NoDuplicateKeys(b) && Reordered(a, b)
    ensures Dumps(rt, a) == Dumps(rt, b)
  {
    ReorderedSameValue(a, b);
    DumpsIsPrint(rt, a);
    DumpsIsPrint(rt, b);
  }
}
