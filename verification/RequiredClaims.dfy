/** Route-specific required claims: frozen when the dependency is built, compared exactly. */
module RequiredClaims {
  import opened Base
  import opened Json
  import opened JsonPrint
  import opened JsonRoundTrip
  import opened JsonTheorems
  import opened Runtimes
  import opened Verifiers

  const REQUIRED_CLAIMS_INVALID := Format("capability_grant_required_claims_invalid")
  /** Stands for the interpreter's own recursion error, which is no error of the module. */
  const TOO_DEEP := Format("recursion_limit_exceeded")
  const CLAIM_MISMATCH := Denied("capability_grant_required_claim_mismatch")

  predicate IsClaimName(k: Text) {
    k != [] && IsTrimmed(k) && |k| <= 200 && forall i | 0 <= i < |k| :: k[i] >= 0x20 && k[i] != 0x7F
  }

  /** A claim name is its own strip, of 1 to 200 characters, none of them a control character. */
  lemma ClaimNameSpelledOut(k: Text)
    ensures IsClaimName(k) <==>
      1 <= |k| <= 200 && Strip(k) == k && forall i | 0 <= i < |k| :: k[i] >= 32 && k[i] != 127
  {
    StripFixesTrimmed(k);
  }

  /** One required claim can be frozen. */
  predicate CanFreeze(rt: Runtime, required: map<Text, Json>, k: Text)
    requires k in required
  {
    IsClaimName(k) && CanonicalBytes(rt, required[k]).Ok?
  }

  /** Every required claim as canonical bytes. */
  function SnapshotOf(rt: Runtime, required: map<Text, Json>): Result<map<Text, Bytes>> {
    if forall k | k in required :: CanFreeze(rt, required, k) then
      Ok(map k | k in required :: CanonicalBytes(rt, required[k]).value)
    else Err(REQUIRED_CLAIMS_INVALID)
  }

  /** The signed claim is present and prints to the required bytes. */
  predicate ClaimMatches(rt: Runtime, grant: VerifiedGrant, k: Text, expected: Bytes) {
    && grant.claims.Proxy?
    && k in grant.claims.fields
    && CanonicalBytes(rt, Thaw(grant.claims.fields[k])) == Ok(expected)
  }

  function CheckRequired(rt: Runtime, grant: VerifiedGrant, snapshot: map<Text, Bytes>): Result<()> {
    if forall k | k in snapshot :: ClaimMatches(rt, grant, k, snapshot[k]) then Ok(()) else Err(CLAIM_MISMATCH)
  }

  /** The signed claims hold this value under this key. */
  ghost predicate Holds(grant: VerifiedGrant, k: Text, v: Json) {
    && Thaw(grant.claims).Obj?
    && k in Thaw(grant.claims).fields
    && Thaw(grant.claims).fields[k] == v
  }

  /** Comparing canonical bytes is comparing values, at every depth. */
  lemma MatchIsEquality(rt: Runtime, grant: VerifiedGrant, k: Text, v: Json)
    requires FloatsRoundTrip(rt) && CanonicalBytes(rt, v).Ok?
    requires grant.claims.Proxy?
    ensures ClaimMatches(rt, grant, k, CanonicalBytes(rt, v).value) <==> Holds(grant, k, v)
  {
    if k in grant.claims.fields {
      var w := Thaw(grant.claims.fields[k]);
      CanonicalBytesDefined(rt, v);
      CanonicalBytesDefined(rt, w);
      if Valid(w) {
        CanonicalBytesDecideEquality(rt, v, w);
      }
    }
  }

  /** The check passes iff every claim that was required is signed with an equal value. */
  lemma RequiredCheckIsExact(rt: Runtime, required: map<Text, Json>, grant: VerifiedGrant)
    requires FloatsRoundTrip(rt) && SnapshotOf(rt, required).Ok? && grant.claims.Proxy?
    ensures CheckRequired(rt, grant, SnapshotOf(rt, required).value).Ok? <==>
      forall k | k in required :: Holds(grant, k, required[k])
  {
    var snapshot := SnapshotOf(rt, required).value;
    forall k | k in required ensures ClaimMatches(rt, grant, k, snapshot[k]) <==> Holds(grant, k, required[k]) {
      assert CanFreeze(rt, required, k);
      MatchIsEquality(rt, grant, k, required[k]);
    }
  }

  // ----- the caller's mapping: lists and dicts on the heap, shared and mutable -----

  type ScalarValue = v: Json | !v.Arr? && !v.Obj? witness Null

  /** One place in a list or a dict: a scalar, or a reference to another list or dict. */
  datatype Slot = Leaf(v: ScalarValue) | Ref(node: Node)

  datatype Content = ListOf(items: seq<Slot>) | DictOfSlots(fields: map<Text, Slot>)

  class Node {
    var content: Content

    constructor (content: Content)
      ensures this.content == content
    {
      this.content := content;
    }
  }

  /** The JSON value that a slot stands for in the present heap; none when walking it passes the
      interpreter's recursion limit, as a cycle always does. */
  function Read(slot: Slot, limit: nat): Option<Json>
    reads *
    decreases limit, 0
  {
    match slot
    case Leaf(v) => Some(v)
    case Ref(node) =>
      if limit == 0 then None
      else
        match node.content
        case ListOf(items) =>
          (match ReadItems(items, limit - 1)
           case None => None
           case Some(values) => Some(Arr(values)))
        case DictOfSlots(fields) =>
          if forall k | k in fields :: Read(fields[k], limit - 1).Some?
          then Some(Obj(map k | k in fields :: Read(fields[k], limit - 1).value))
          else None
  }

  function ReadItems(items: seq<Slot>, limit: nat): Option<seq<Json>>
    reads *
    decreases limit, 1 + |items|
  {
    if items == [] then Some([])
    else
      match Read(items[0], limit)
      case None => None
      case Some(first) =>
        match ReadItems(items[1..], limit)
        case None => None
        case Some(others) => Some([first] + others)
  }

  /** The heap holds this value here: dict for dict, list for list, item for item. */
  ghost predicate Holding(slot: Slot, v: Json)
    reads *
    decreases v
  {
    match v
    case Obj(fields) =>
      && slot.Ref? && slot.node.content.DictOfSlots?
      && slot.node.content.fields.Keys == fields.Keys
      && forall k | k in fields :: Holding(slot.node.content.fields[k], fields[k])
    case Arr(items) =>
      && slot.Ref? && slot.node.content.ListOf?
      && |slot.node.content.items| == |items|
      && forall i | 0 <= i < |items| :: Holding(slot.node.content.items[i], items[i])
    case _ => slot == Leaf(v)
  }

  /** Lists and dicts are nested at most this deep in the value. */
  ghost predicate NestedAtMost(v: Json, limit: nat) {
    match v
    case Obj(fields) => limit > 0 && forall k | k in fields :: NestedAtMost(fields[k], limit - 1)
    case Arr(items) => limit > 0 && forall i | 0 <= i < |items| :: NestedAtMost(items[i], limit - 1)
    case _ => true
  }

  lemma {:induction false} ItemsByPosition(items: seq<Slot>, limit: nat)
    ensures ReadItems(items, limit).Some? <==> forall i | 0 <= i < |items| :: Read(items[i], limit).Some?
    ensures ReadItems(items, limit).Some? ==>
      && |ReadItems(items, limit).value| == |items|
      && forall i | 0 <= i < |items| :: Read(items[i], limit) == Some(ReadItems(items, limit).value[i])
  {
    if items != [] {
      ItemsByPosition(items[1..], limit);
    }
  }

  /** What is read is what the heap holds, as deep as the limit goes. */
  lemma {:induction false} ReadIsHolding(slot: Slot, v: Json, limit: nat)
    ensures Read(slot, limit) == Some(v) <==> Holding(slot, v) && NestedAtMost(v, limit)
    decreases v
  {
    if slot.Ref? && limit > 0 {
      match slot.node.content
      case ListOf(items) =>
        ItemsByPosition(items, limit - 1);
        if v.Arr? && |v.items| == |items| {
          forall i | 0 <= i < |items|
            ensures Read(items[i], limit - 1) == Some(v.items[i])
               <==> Holding(items[i], v.items[i]) && NestedAtMost(v.items[i], limit - 1)
          {
            ReadIsHolding(items[i], v.items[i], limit - 1);
          }
          if ReadItems(items, limit - 1).Some? {
            SameItems(ReadItems(items, limit - 1), v.items);
          }
        }
      case DictOfSlots(fields) =>
        if v.Obj? && v.fields.Keys == fields.Keys {
          forall k | k in fields
            ensures Read(fields[k], limit - 1) == Some(v.fields[k])
               <==> Holding(fields[k], v.fields[k]) && NestedAtMost(v.fields[k], limit - 1)
          {
            assert k in v.fields;
            ReadIsHolding(fields[k], v.fields[k], limit - 1);
          }
          ReadDict(slot, fields, limit, v);
        }
    }
  }

  lemma SameItems(r: Option<seq<Json>>, items: seq<Json>)
    requires r.Some? && |r.value| == |items|
    ensures r.value == items <==> forall i | 0 <= i < |items| :: r.value[i] == items[i]
  {
  }

  lemma ReadDict(slot: Slot, fields: map<Text, Slot>, limit: nat, v: Json)
    requires slot.Ref? && slot.node.content == DictOfSlots(fields) && limit > 0
    requires v.Obj? && v.fields.Keys == fields.Keys
    ensures Read(slot, limit) == Some(v) <==> forall k | k in fields :: Read(fields[k], limit - 1) == Some(v.fields[k])
  {
    if forall k | k in fields :: Read(fields[k], limit - 1) == Some(v.fields[k]) {
      assert Read(slot, limit).value.fields == v.fields;
    }
    if Read(slot, limit) == Some(v) {
      forall k | k in fields ensures Read(fields[k], limit - 1) == Some(v.fields[k]) {
        assert Read(slot, limit).value.fields[k] == v.fields[k];
      }
    }
  }

  /** The claims a mapping requires in the present heap; a mapping is a dict. */
  function Values(source: Node, limit: nat): Option<map<Text, Json>>
    reads *
  {
    match source.content
    case ListOf(_) => None
    case DictOfSlots(fields) =>
      if forall k | k in fields :: Read(fields[k], limit).Some?
      then Some(map k | k in fields :: Read(fields[k], limit).value)
      else None
  }

  /** One in-place operation of the caller on a list or dict it can reach. */
  datatype Change =
    | SetField(key: Text, slot: Slot)
    | DeleteField(key: Text)
    | SetItem(index: nat, slot: Slot)
    | InsertItem(index: nat, slot: Slot)
    | DeleteItem(index: nat)

  datatype Edit = Edit(node: Node, change: Change)

  /** The content after a change; one that does not apply raises and leaves it alone. */
  function Changed(content: Content, change: Change): Content {
    match content
    case DictOfSlots(fields) =>
      (match change
       case SetField(key, slot) => DictOfSlots(fields[key := slot])
       case DeleteField(key) => DictOfSlots(fields - {key})
       case _ => content)
    case ListOf(items) =>
      match change
      case SetItem(i, slot) => if i < |items| then ListOf(items[i := slot]) else content
      case InsertItem(i, slot) => if i <= |items| then ListOf(items[..i] + [slot] + items[i..]) else content
      case DeleteItem(i) => if i < |items| then ListOf(items[..i] + items[i + 1..]) else content
      case _ => content
  }

  /** What each operation does to a dict or to a list, key by key and position by position. */
  lemma ChangedSpelledOut(fields: map<Text, Slot>, items: seq<Slot>, key: Text, i: nat, slot: Slot)
    ensures var set_ := Changed(DictOfSlots(fields), SetField(key, slot));
      && set_.DictOfSlots? && key in set_.fields && set_.fields[key] == slot
      && forall k | k != key :: (k in set_.fields <==> k in fields) && (k in fields ==> set_.fields[k] == fields[k])
    ensures var deleted := Changed(DictOfSlots(fields), DeleteField(key));
      && deleted.DictOfSlots? && key !in deleted.fields
      && forall k | k != key ::
           (k in deleted.fields <==> k in fields) && (k in fields ==> deleted.fields[k] == fields[k])
    ensures i < |items| ==>
      var put := Changed(ListOf(items), SetItem(i, slot));
      && put.ListOf? && |put.items| == |items| && put.items[i] == slot
      && forall j | 0 <= j < |items| && j != i :: put.items[j] == items[j]
    ensures i <= |items| ==>
      var inserted := Changed(ListOf(items), InsertItem(i, slot));
      && inserted.ListOf? && |inserted.items| == |items| + 1 && inserted.items[i] == slot
      && (forall j | 0 <= j < i :: inserted.items[j] == items[j])
      && forall j | i <= j < |items| :: inserted.items[j + 1] == items[j]
    ensures i < |items| ==>
      var removed := Changed(ListOf(items), DeleteItem(i));
      && removed.ListOf? && |removed.items| == |items| - 1
      && (forall j | 0 <= j < i :: removed.items[j] == items[j])
      && forall j | i < j < |items| :: removed.items[j - 1] == items[j]
  {
  }

  ghost function Touched(edits: seq<Edit>): set<Node> {
    set e | e in edits :: e.node
  }

  /** What a node holds after the edits, when it held `content` before. */
  function Replay(node: Node, content: Content, edits: seq<Edit>): Content {
    if edits == [] then content
    else
      var before := Replay(node, content, edits[..|edits| - 1]);
      var last := edits[|edits| - 1];
      if last.node == node then Changed(before, last.change) else before
  }

  method ApplyEdits(edits: seq<Edit>)
    modifies Touched(edits)
    ensures forall n | n in Touched(edits) :: n.content == Replay(n, old(n.content), edits)
  {
    for i := 0 to |edits|
      invariant forall n | n in Touched(edits) :: n.content == Replay(n, old(n.content), edits[..i])
    {
      assert edits[i] in edits;
      assert edits[..i + 1][..i] == edits[..i];
      edits[i].node.content := Changed(edits[i].node.content, edits[i].change);
    }
    FullPrefix(edits);
  }

  lemma AllRead(source: Node, limit: nat, required: map<Text, Json>)
    requires source.content.DictOfSlots? && source.content.fields.Keys == required.Keys
    requires forall k | k in required :: Read(source.content.fields[k], limit) == Some(required[k])
    ensures Values(source, limit) == Some(required)
  {
    var fields := source.content.fields;
    assert forall k | k in fields :: k in required && Read(fields[k], limit) == Some(required[k]);
    assert Values(source, limit).value == required;
  }

  // ----- freezing and checking -----

  /** A prefix of the keys has been frozen. */
  ghost predicate Freezes(rt: Runtime, required: map<Text, Json>, keys: seq<Text>, snapshot: map<Text, Bytes>) {
    && (forall k :: k in snapshot <==> k in keys)
    && forall k | k in snapshot ::
         k in required && CanFreeze(rt, required, k) && snapshot[k] == CanonicalBytes(rt, required[k]).value
  }

  lemma FreezeOne(rt: Runtime, required: map<Text, Json>, keys: seq<Text>, i: nat, snapshot: map<Text, Bytes>)
    requires i < |keys| && Freezes(rt, required, keys[..i], snapshot)
    requires keys[i] in required && CanFreeze(rt, required, keys[i])
    ensures Freezes(rt, required, keys[..i + 1], snapshot[keys[i] := CanonicalBytes(rt, required[keys[i]]).value])
  {
    PrefixStep(keys, i);
  }

  lemma FreezesAll(rt: Runtime, required: map<Text, Json>, keys: seq<Text>, snapshot: map<Text, Bytes>)
    requires Freezes(rt, required, keys, snapshot) && forall k :: k in keys <==> k in required
    ensures SnapshotOf(rt, required) == Ok(snapshot)
  {
    assert forall k | k in required :: k in keys && k in snapshot && CanFreeze(rt, required, k);
    var whole := map k | k in required :: CanonicalBytes(rt, required[k]).value;
    assert forall k | k in snapshot :: k in keys && k in required;
    assert snapshot == whole;
  }

  /** The grant holds every one of these claims. */
  ghost predicate HoldsAll(grant: VerifiedGrant, required: map<Text, Json>) {
    forall k | k in required :: Holds(grant, k, required[k])
  }

  /** The part of a dependency that holds the required claims; nothing it keeps is shared. */
  class RequiredClaimsGuard {
    const snapshot: map<Text, Bytes>

    constructor (snapshot: map<Text, Bytes>)
      ensures this.snapshot == snapshot
    {
      this.snapshot := snapshot;
    }

    /** `_required_claims_snapshot`: freeze the claims the mapping holds now, or refuse it. */
    static method Freeze(rt: Runtime, source: Node, limit: nat) returns (r: Result<map<Text, Bytes>>)
      ensures r.Ok? <==> Values(source, limit).Some? && SnapshotOf(rt, Values(source, limit).value).Ok?
      ensures r.Ok? ==> r == SnapshotOf(rt, Values(source, limit).value)
      ensures r.Err? ==> r.error == REQUIRED_CLAIMS_INVALID || r.error == TOO_DEEP
    {
      if source.content.ListOf? {
        return Err(REQUIRED_CLAIMS_INVALID);
      }
      var required := ReadClaimValues(source, limit);
      if required.None? {
        return Err(TOO_DEEP);
      }
      r := FreezeValues(rt, required.value);
    }

    /** What the mapping holds now, claim by claim. */
    static method ReadClaimValues(source: Node, limit: nat) returns (r: Option<map<Text, Json>>)
      requires source.content.DictOfSlots?
      ensures r == Values(source, limit)
    {
      var fields := source.content.fields;
      var keys := SortedKeys(fields.Keys);
      var required: map<Text, Json> := map[];
      for i := 0 to |keys|
        invariant forall k :: k in required <==> k in keys[..i]
        invariant forall k | k in required :: k in fields && Read(fields[k], limit) == Some(required[k])
      {
        assert keys[i] in keys;
        PrefixStep(keys, i);
        var value := Read(fields[keys[i]], limit);
        if value.None? {
          return None;
        }
        required := required[keys[i] := value.value];
      }
      FullPrefix(keys);
      assert forall k | k in fields :: k in keys && k in required;
      AllRead(source, limit, required);
      return Some(required);
    }

    static method FreezeValues(rt: Runtime, required: map<Text, Json>) returns (r: Result<map<Text, Bytes>>)
      ensures r == SnapshotOf(rt, required)
    {
      var keys := SortedKeys(required.Keys);
      var snapshot: map<Text, Bytes> := map[];
      for i := 0 to |keys|
        invariant Freezes(rt, required, keys[..i], snapshot)
      {
        var key := keys[i];
        assert key in keys;
        var printed := CanonicalBytes(rt, required[key]);
        if !IsClaimName(key) || printed.Err? {
          assert !CanFreeze(rt, required, key);
          return Err(REQUIRED_CLAIMS_INVALID);
        }
        FreezeOne(rt, required, keys, i, snapshot);
        snapshot := snapshot[key := printed.value];
      }
      FullPrefix(keys);
      FreezesAll(rt, required, keys, snapshot);
      return Ok(snapshot);
    }

    /** Building a guard succeeds iff every claim has a proper name and a printable value, and it
        then lets through exactly the grants that hold the values of this moment. */
    static method Build(rt: Runtime, source: Node, limit: nat) returns (r: Result<RequiredClaimsGuard>)
      ensures r.Ok? <==>
        && Values(source, limit).Some?
        && forall k | k in Values(source, limit).value :: CanFreeze(rt, Values(source, limit).value, k)
      ensures r.Err? ==> r.error == REQUIRED_CLAIMS_INVALID || r.error == TOO_DEEP
      ensures r.Ok? ==> fresh(r.value) && SnapshotOf(rt, Values(source, limit).value) == Ok(r.value.snapshot)
      ensures r.Ok? && FloatsRoundTrip(rt) ==>
        forall grant: VerifiedGrant | grant.claims.Proxy? ::
          CheckRequired(rt, grant, r.value.snapshot).Ok? <==> HoldsAll(grant, Values(source, limit).value)
    {
      var frozen := Freeze(rt, source, limit);
      if frozen.Err? {
        return Err(frozen.error);
      }
      var guard := new RequiredClaimsGuard(frozen.value);
      if FloatsRoundTrip(rt) {
        forall grant: VerifiedGrant | grant.claims.Proxy?
          ensures CheckRequired(rt, grant, guard.snapshot).Ok? <==> HoldsAll(grant, Values(source, limit).value)
        {
          RequiredCheckIsExact(rt, Values(source, limit).value, grant);
        }
      }
      return Ok(guard);
    }

    /** `_verify_required_claims`: stop at the first claim that is missing or differs. */
    method Check(rt: Runtime, grant: VerifiedGrant) returns (r: Result<()>)
      ensures r == CheckRequired(rt, grant, snapshot)
    {
      var keys := SortedKeys(snapshot.Keys);
      for i := 0 to |keys|
        invariant forall k | k in keys[..i] :: k in snapshot && ClaimMatches(rt, grant, k, snapshot[k])
      {
        assert keys[i] in keys;
        PrefixStep(keys, i);
        if !ClaimMatches(rt, grant, keys[i], snapshot[keys[i]]) {
          return Err(CLAIM_MISMATCH);
        }
      }
      FullPrefix(keys);
      assert forall k | k in snapshot :: k in keys;
      return Ok(());
    }
  }

  /** Exact and frozen: whatever the caller does afterwards to its mapping and to the lists and
      dicts inside it, at any depth, the check compares with the values of the moment of building. */
  method CheckAfterEdits(rt: Runtime, source: Node, limit: nat, edits: seq<Edit>, grant: VerifiedGrant)
    returns (r: Result<()>)
    requires FloatsRoundTrip(rt) && grant.claims.Proxy?
    modifies Touched(edits)
    ensures forall n | n in Touched(edits) :: n.content == Replay(n, old(n.content), edits)
    ensures var required := old(Values(source, limit));
      if required.Some? && SnapshotOf(rt, required.value).Ok? then
        (r.Ok? <==> HoldsAll(grant, required.value)) && (r.Err? ==> r.error == CLAIM_MISMATCH)
      else r.Err? && (r.error == REQUIRED_CLAIMS_INVALID || r.error == TOO_DEEP)
  {
    var built := RequiredClaimsGuard.Build(rt, source, limit);
    ApplyEdits(edits);
    if built.Err? {
      return Err(built.error);
    }
    r := built.value.Check(rt, grant);
  }

  const SCOPES := Lit("scopes")

  /** The edits are real: a list inside the mapping grows in place, the mapping then stands for
      other claims, and the guard still lets through exactly the grants with the old ones. */
  method GrowingListIsNotSeen(rt: Runtime) returns (source: Node, guard: RequiredClaimsGuard)
    requires FloatsRoundTrip(rt)
    ensures Values(source, 1) == Some(map[SCOPES := Arr([Null])])
    ensures forall grant: VerifiedGrant | grant.claims.Proxy? ::
      CheckRequired(rt, grant, guard.snapshot).Ok? <==> HoldsAll(grant, map[SCOPES := Arr([])])
  {
    var scopes := new Node(ListOf([]));
    source := new Node(DictOfSlots(map[SCOPES := Ref(scopes)]));
    guard := GuardOfScopes(rt, source, scopes);
    InsertNull(scopes);
    ScopesRead(source, scopes, [Leaf(Null)], [Null]);
  }

  method GuardOfScopes(rt: Runtime, source: Node, scopes: Node) returns (guard: RequiredClaimsGuard)
    requires FloatsRoundTrip(rt)
    requires source.content == DictOfSlots(map[SCOPES := Ref(scopes)]) && scopes.content == ListOf([])
    ensures forall grant: VerifiedGrant | grant.claims.Proxy? ::
      CheckRequired(rt, grant, guard.snapshot).Ok? <==> HoldsAll(grant, map[SCOPES := Arr([])])
  {
    ScopesRead(source, scopes, [], []);
    ScopesCanFreeze(rt);
    var built := RequiredClaimsGuard.Build(rt, source, 1);
    guard := built.value;
  }

  method InsertNull(node: Node)
    requires node.content == ListOf([])
    modifies node
    ensures node.content == ListOf([Leaf(Null)])
  {
    var edits := [Edit(node, InsertItem(0, Leaf(Null)))];
    assert edits[0] in edits;
    FirstItem(node, Leaf(Null));
    ApplyEdits(edits);
  }

  lemma FirstItem(node: Node, slot: Slot)
    ensures Replay(node, ListOf([]), [Edit(node, InsertItem(0, slot))]) == ListOf([slot])
  {
    var edits := [Edit(node, InsertItem(0, slot))];
    var none: seq<Slot> := [];
    assert edits[..0] == [];
    assert Changed(ListOf(none), edits[0].change) == ListOf(none[..0] + [slot] + none[0..]);
    assert none[..0] + [slot] + none[0..] == [slot];
  }

  lemma ScopesRead(source: Node, scopes: Node, items: seq<Slot>, values: seq<Json>)
    requires source.content == DictOfSlots(map[SCOPES := Ref(scopes)]) && scopes.content == ListOf(items)
    requires (items == [] && values == []) || (items == [Leaf(Null)] && values == [Null])
    ensures Values(source, 1) == Some(map[SCOPES := Arr(values)])
  {
    var none: seq<Slot> := [];
    assert ReadItems(none, 0) == Some([]);
    if items != [] {
      assert items[1..] == none && [Null] + [] == [Null];
      assert Read(items[0], 0) == Some(Null);
    }
    AllRead(source, 1, map[SCOPES := Arr(values)]);
  }

  lemma ScopesCanFreeze(rt: Runtime)
    requires FloatsRoundTrip(rt)
    ensures CanFreeze(rt, map[SCOPES := Arr([])], SCOPES)
  {
    assert Valid(Arr([]));
    CanonicalBytesDefined(rt, Arr([]));
  }
}
