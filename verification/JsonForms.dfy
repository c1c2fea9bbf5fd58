/** JSON values in every form a text may give them (RFC 8259, sections 2 to 6): blanks, numbers, lists
    and dicts. The strict reader accepts a text iff it is such a form. */
module JsonForms {
  import opened Base
  import opened Json
  import opened Runtimes
  import opened JsonPrint
  import opened JsonParse
  import opened JsonRoundTrip
  import opened JsonTheorems
  import opened JsonGrammar
  import Utf8

  // ----- numbers -----

  datatype Exponent = Exponent(letter: CodePoint, sign: Text, digits: Text)

  datatype NumberForm = NumberForm(neg: bool, whole: Text, fraction: Option<Text>, exponent: Option<Exponent>)

  predicate IsDigits(t: Text) {
    t != [] && forall i | 0 <= i < |t| :: 48 <= t[i] <= 57
  }

  predicate WellFormedNumber(n: NumberForm) {
    && IsDigits(n.whole) && (n.whole == [48] || n.whole[0] != 48)
    && (n.fraction.Some? ==> IsDigits(n.fraction.value))
    && (n.exponent.Some? ==> WellFormedExponent(n.exponent.value))
  }

  predicate WellFormedExponent(e: Exponent) {
    (e.letter == 101 || e.letter == 69) && (e.sign == [] || e.sign == [43] || e.sign == [45]) && IsDigits(e.digits)
  }

  function FractionText(n: NumberForm): Text {
    if n.fraction.Some? then [46] + n.fraction.value else []
  }

  function ExponentText(n: NumberForm): Text {
    if n.exponent.Some? then [n.exponent.value.letter] + (n.exponent.value.sign + n.exponent.value.digits) else []
  }

  function SignText(n: NumberForm): Text {
    if n.neg then [45] else []
  }

  function NumberText(n: NumberForm): Text {
    SignText(n) + (n.whole + (FractionText(n) + ExponentText(n)))
  }

  predicate IsFloatForm(n: NumberForm) {
    n.fraction.Some? || n.exponent.Some?
  }

  function Power10(n: nat): nat {
    if n == 0 then 1 else 10 * Power10(n - 1)
  }

  /** What digits mean: the first one counts most. */
  function Decimal(t: Text): int {
    if t == [] then 0 else (t[0] as int - 48) * Power10(|t| - 1) + Decimal(t[1..])
  }

  lemma {:induction false} DecimalSnoc(t: Text, c: CodePoint)
    ensures Decimal(t + [c]) == Decimal(t) * 10 + (c as int - 48)
  {
    if t == [] {
      assert t + [c] == [c] && [c][1..] == [];
    } else {
      DropAppend(t, 1, [c]);
      DecimalSnoc(t[1..], c);
    }
  }

  lemma {:induction false} ParseNatIsDecimal(t: Text)
    ensures ParseNat(t) == Decimal(t)
    decreases |t|
  {
    if t != [] {
      var front := t[..|t| - 1];
      ParseNatIsDecimal(front);
      DecimalSnoc(front, t[|t| - 1]);
      assert t == front + [t[|t| - 1]];
    }
  }

  // Every number is scanned whole.

  lemma DigitsThen(d: Text, rest: Text)
    requires IsDigits(d) && (rest == [] || !IsDigit(rest[0]))
    ensures DigitRun(d + rest) == |d| && DigitRun(d) == |d|
  {
    DigitRunAll(d);
    DigitRunStops(d, rest);
  }

  lemma FractionScanned(f: Text, e: Text)
    requires IsDigits(f) && (e == [] || !IsDigit(e[0]))
    ensures FractionRun([46] + f + e) == 1 + |f|
  {
    var s := [46] + f + e;
    assert s[1..] == f + e;
    DigitsThen(f, e);
  }

  lemma ExponentScanned(e: Exponent)
    requires WellFormedExponent(e)
    ensures var t := [e.letter] + (e.sign + e.digits); ExponentRun(t) == |t|
  {
    var t := [e.letter] + (e.sign + e.digits);
    DigitRunAll(e.digits);
    assert t[1 + |e.sign|..] == e.digits;
    if e.sign == [] {
      assert t[1] == e.digits[0];
    } else {
      assert t[1] == e.sign[0];
    }
  }

  lemma TailScanned(n: NumberForm)
    requires WellFormedNumber(n)
    ensures TailRun(FractionText(n) + ExponentText(n)) == |FractionText(n) + ExponentText(n)|
  {
    var t := FractionText(n) + ExponentText(n);
    if n.exponent.Some? {
      ExponentScanned(n.exponent.value);
    }
    if n.fraction.Some? {
      FractionScanned(n.fraction.value, ExponentText(n));
    }
    assert FractionRun(t) == |FractionText(n)|;
    SplitAppend(FractionText(n), ExponentText(n));
  }

  lemma WholeScanned(whole: Text, tail: Text)
    requires IsDigits(whole) && (whole == [48] || whole[0] != 48) && (tail == [] || !IsDigit(tail[0]))
    ensures IntegerRun(whole + tail) == |whole|
  {
    DigitsThen(whole, tail);
  }

  lemma UnsignedScanned(whole: Text, tail: Text)
    requires whole != [] && IntegerRun(whole + tail) == |whole| && TailRun(tail) == |tail|
    ensures ScanUnsigned(whole + tail) == Some((|whole + tail|, tail != []))
  {
    WholeAndTail(whole + tail);
    SplitAppend(whole, tail);
  }

  /** The scan of a number from that of its part behind the sign. */
  lemma SignedScanned(s: Text, t: Text, isFloat: bool)
    requires s == t || s == [MINUS] + t
    requires t != [] && IsDigit(t[0]) && ScanUnsigned(t) == Some((|t|, isFloat))
    ensures ScanNumber(s) == Some((|s|, isFloat))
  {
    if s == t {
      PlainNumber(s);
    } else {
      MinusNumber(t);
    }
  }

  lemma PlainNumber(s: Text)
    requires s != [] && s[0] != MINUS
    ensures ScanNumber(s) == ScanUnsigned(s)
  {
    assert s[0..] == s;
  }

  function Longer(r: Option<(nat, bool)>): Option<(nat, bool)> {
    match r
    case None => None
    case Some((n, isFloat)) => Some((1 + n, isFloat))
  }

  lemma MinusNumber(t: Text)
    ensures ScanNumber([MINUS] + t) == Longer(ScanUnsigned(t))
  {
    ConsTail(MINUS, t);
  }

  lemma NumberScanned(n: NumberForm)
    requires WellFormedNumber(n)
    ensures ScanNumber(NumberText(n)) == Some((|NumberText(n)|, IsFloatForm(n)))
  {
    var tail := FractionText(n) + ExponentText(n);
    TailScanned(n);
    WholeScanned(n.whole, tail);
    UnsignedScanned(n.whole, tail);
    Associate2(SignText(n), n.whole + tail);
    SignedScanned(NumberText(n), n.whole + tail, IsFloatForm(n));
  }

  lemma Associate2(a: Text, b: Text)
    ensures a == [] ==> a + b == b
  {
  }

  // Every scanned number has a form.

  lemma TailWasForm(s: Text) returns (fraction: Option<Text>, exponent: Option<Exponent>)
    ensures var n := NumberForm(false, [48], fraction, exponent);
      && WellFormedNumber(n)
      && s[..TailRun(s)] == FractionText(n) + ExponentText(n)
      && (TailRun(s) > 0 <==> IsFloatForm(n))
  {
    var f := FractionRun(s);
    fraction := FractionWasForm(s);
    exponent := ExponentWasForm(s[f..]);
    CutInTwo(s, f, ExponentRun(s[f..]));
  }

  lemma CutInTwo(s: Text, m: nat, n: nat)
    requires m + n <= |s|
    ensures s[..m + n] == s[..m] + s[m..][..n]
  {
  }

  lemma FractionWasForm(s: Text) returns (fraction: Option<Text>)
    ensures fraction.Some? ==> IsDigits(fraction.value)
    ensures s[..FractionRun(s)] == if fraction.Some? then [46] + fraction.value else []
  {
    if FractionRun(s) == 0 {
      fraction := None;
    } else {
      fraction := Some(s[1..FractionRun(s)]);
      assert forall i | 0 <= i < DigitRun(s[1..]) :: s[1..FractionRun(s)][i] == s[1..][i];
    }
  }

  lemma ExponentWasForm(s: Text) returns (exponent: Option<Exponent>)
    ensures exponent.Some? ==> WellFormedExponent(exponent.value)
    ensures s[..ExponentRun(s)]
         == if exponent.Some? then [exponent.value.letter] + (exponent.value.sign + exponent.value.digits) else []
  {
    if ExponentRun(s) == 0 {
      exponent := None;
    } else {
      var sign := if s[1] == 43 || s[1] == MINUS then 1 else 0;
      exponent := Some(ExponentParts(s, sign, DigitRun(s[1 + sign..])));
    }
  }

  lemma RunIsDigits(s: Text)
    requires DigitRun(s) > 0
    ensures IsDigits(s[..DigitRun(s)])
  {
  }

  /** Letter, sign and digits at the start of a text. */
  function ExponentParts(s: Text, sign: nat, digits: nat): (e: Exponent)
    requires 1 <= |s| && (sign == 0 || (sign == 1 && |s| >= 2 && (s[1] == 43 || s[1] == MINUS)))
    requires 0 < digits == DigitRun(s[1 + sign..]) && (s[0] == 101 || s[0] == 69)
    ensures WellFormedExponent(e)
    ensures 1 + sign + digits <= |s| && s[..1 + sign + digits] == [e.letter] + (e.sign + e.digits)
  {
    RunIsDigits(s[1 + sign..]);
    ThreeParts(s, 1 + sign, digits);
    Exponent(s[0], s[1..1 + sign], s[1 + sign..][..digits])
  }

  lemma ThreeParts(s: Text, m: nat, n: nat)
    requires 1 <= m && m + n <= |s|
    ensures s[..m + n] == [s[0]] + (s[1..m] + s[m..][..n])
    ensures m == 1 ==> s[1..m] == []
    ensures m == 2 ==> s[1..m] == [s[1]]
  {
  }

  lemma WholeWasDigits(s: Text)
    requires IntegerRun(s) > 0
    ensures IsDigits(s[..IntegerRun(s)])
    ensures s[..IntegerRun(s)] == [48] || s[..IntegerRun(s)][0] != 48
  {
  }

  lemma UnsignedWasForm(s: Text, neg: bool) returns (n: NumberForm)
    requires ScanUnsigned(s).Some?
    ensures WellFormedNumber(n) && n.neg == neg && IsFloatForm(n) == ScanUnsigned(s).value.1
    ensures s[..ScanUnsigned(s).value.0] == n.whole + (FractionText(n) + ExponentText(n))
  {
    WholeAndTail(s);
    n := PartsOfNumber(s, neg, IntegerRun(s), TailRun(s[IntegerRun(s)..]));
  }

  lemma PartsOfNumber(s: Text, neg: bool, w: nat, tail: nat) returns (n: NumberForm)
    requires 0 < w == IntegerRun(s) && tail == TailRun(s[w..])
    ensures WellFormedNumber(n) && n.neg == neg && (IsFloatForm(n) <==> tail > 0)
    ensures w + tail <= |s| && s[..w + tail] == n.whole + (FractionText(n) + ExponentText(n))
  {
    WholeWasDigits(s);
    var fraction, exponent := TailWasForm(s[w..]);
    n := NumberForm(neg, s[..w], fraction, exponent);
    SameTail(n);
    CutInTwo(s, w, tail);
  }

  lemma SameTail(n: NumberForm)
    ensures var m := NumberForm(false, [48], n.fraction, n.exponent);
      FractionText(n) == FractionText(m) && ExponentText(n) == ExponentText(m) && IsFloatForm(n) == IsFloatForm(m)
  {
  }

  lemma NumberWasForm(s: Text) returns (n: NumberForm)
    requires ScanNumber(s).Some?
    ensures WellFormedNumber(n) && IsFloatForm(n) == ScanNumber(s).value.1
    ensures s[..ScanNumber(s).value.0] == NumberText(n)
  {
    var sign := SignRun(s);
    n := UnsignedWasForm(s[sign..], sign == 1);
    CutInTwo(s, sign, ScanUnsigned(s[sign..]).value.0);
    assert s[..sign] == SignText(n);
  }

  /** What an integer form means. */
  function IntegerOf(n: NumberForm): int {
    if n.neg then -Decimal(n.whole) else Decimal(n.whole)
  }

  lemma IntegerIsRead(n: NumberForm)
    requires WellFormedNumber(n) && !IsFloatForm(n)
    ensures ParseInt(NumberText(n)) == IntegerOf(n)
  {
    ParseNatIsDecimal(n.whole);
    assert n.whole + ([] + []) == n.whole;
    if n.neg {
      ConsTail(MINUS, n.whole);
    } else {
      Associate2([], n.whole);
    }
  }

  // ----- values -----

  /** A value as a text spells it. */
  datatype Form =
    | Word(name: Text)
    | Number(number: NumberForm)
    | String(parts: seq<Text>, t: Text)
    | List(lead: Text, items: seq<ListItem>)
    | Dict(lead: Text, members: seq<DictMember>)

  /** An item with the blanks behind it and, after a comma, those before the next one. */
  datatype ListItem = ListItem(form: Form, after: Text, next: Text)

  datatype DictMember = DictMember(
    parts: seq<Text>, key: Text, beforeColon: Text, afterColon: Text, form: Form, after: Text, next: Text)

  predicate IsBlanks(t: Text) {
    forall i | 0 <= i < |t| :: t[i] == 32 || t[i] == 9 || t[i] == 10 || t[i] == 13
  }

  /** The text of a form, then `rest`. */
  function Render(f: Form, rest: Text): Text
    decreases f, 1
  {
    match f
    case Word(name) => name + rest
    case Number(n) => NumberText(n) + rest
    case String(parts, _) => [QUOTE] + Concat(parts, [QUOTE] + rest)
    case List(lead, items) =>
      [OPEN_BRACKET] + (lead + if items == [] then [CLOSE_BRACKET] + rest else RenderItems(items, rest))
    case Dict(lead, members) =>
      [OPEN_BRACE] + (lead + if members == [] then [CLOSE_BRACE] + rest else RenderMembers(members, rest))
  }

  function RenderItems(items: seq<ListItem>, rest: Text): Text
    requires items != []
    decreases items, 0
  {
    Render(items[0].form, items[0].after +
      if |items| == 1 then [CLOSE_BRACKET] + rest
      else [COMMA] + (items[0].next + RenderItems(items[1..], rest)))
  }

  function RenderMembers(members: seq<DictMember>, rest: Text): Text
    requires members != []
    decreases members, 0
  {
    var m := members[0];
    var after := m.after +
      if |members| == 1 then [CLOSE_BRACE] + rest
      else [COMMA] + (m.next + RenderMembers(members[1..], rest));
    RenderKey(m, Render(m.form, after))
  }

  /** A key with its quotes and colon, then the value behind it. */
  function RenderKey(m: DictMember, value: Text): Text {
    [QUOTE] + Concat(m.parts, [QUOTE] + (m.beforeColon + ([COLON] + (m.afterColon + value))))
  }

  ghost predicate WellFormed(f: Form) {
    match f
    case Word(name) => name == Lit("null") || name == Lit("true") || name == Lit("false")
    case Number(n) => WellFormedNumber(n)
    case String(parts, t) => SpellsText(parts, t)
    case List(lead, items) =>
      IsBlanks(lead) && forall i | 0 <= i < |items| :: WellFormedItem(items[i])
    case Dict(lead, members) =>
      IsBlanks(lead) && forall i | 0 <= i < |members| :: WellFormedMember(members[i])
  }

  ghost predicate WellFormedItem(item: ListItem) {
    IsBlanks(item.after) && IsBlanks(item.next) && WellFormed(item.form)
  }

  ghost predicate WellFormedMember(m: DictMember) {
    && SpellsText(m.parts, m.key)
    && IsBlanks(m.beforeColon) && IsBlanks(m.afterColon) && IsBlanks(m.after) && IsBlanks(m.next)
    && WellFormed(m.form)
  }

  /** What a form says. */
  function Meaning(rt: Runtime, f: Form): Tree
    decreases f, 1
  {
    match f
    case Word(name) => if name == Lit("null") then TNull else TBool(name == Lit("true"))
    case Number(n) => if IsFloatForm(n) then TFloat(rt.parseFloat(NumberText(n))) else TInt(IntegerOf(n))
    case String(_, t) => TStr(t)
    case List(_, items) => TArr(ItemMeanings(rt, items))
    case Dict(_, members) => TObj(MemberMeanings(rt, members))
  }

  function ItemMeanings(rt: Runtime, items: seq<ListItem>): (r: seq<Tree>)
    ensures |r| == |items|
    decreases items, 0
  {
    if items == [] then [] else [Meaning(rt, items[0].form)] + ItemMeanings(rt, items[1..])
  }

  function MemberMeanings(rt: Runtime, members: seq<DictMember>): (r: seq<(Text, Tree)>)
    ensures |r| == |members|
    decreases members, 0
  {
    if members == [] then [] else [(members[0].key, Meaning(rt, members[0].form))] + MemberMeanings(rt, members[1..])
  }

  /** No string or key of the tree has a surrogate in it. */
  ghost predicate CleanTree(tree: Tree) {
    match tree
    case TStr(t) => Utf8.Encodable(t)
    case TArr(items) => forall i | 0 <= i < |items| :: CleanTree(items[i])
    case TObj(pairs) => forall i | 0 <= i < |pairs| :: Utf8.Encodable(pairs[i].0) && CleanTree(pairs[i].1)
    case _ => true
  }

  ghost predicate CleanTrees(items: seq<Tree>) {
    forall i | 0 <= i < |items| :: CleanTree(items[i])
  }

  ghost predicate CleanPairs(pairs: seq<(Text, Tree)>) {
    forall i | 0 <= i < |pairs| :: Utf8.Encodable(pairs[i].0) && CleanTree(pairs[i].1)
  }

  // ----- every form is read as what it says -----

  lemma {:induction false} BlanksSkipped(b: Text, rest: Text)
    requires IsBlanks(b) && (rest == [] || !IsBlank(rest[0]))
    ensures SkipBlanks(b + rest) == rest
  {
    if b == [] {
      assert b + rest == rest;
    } else {
      DropAppend(b, 1, rest);
      BlanksSkipped(b[1..], rest);
    }
  }

  /** A form starts with no blank and no closing bracket or brace. */
  lemma FormStart(f: Form, rest: Text)
    requires WellFormed(f)
    ensures var s := Render(f, rest);
      s != [] && !IsBlank(s[0]) && s[0] != CLOSE_BRACKET && s[0] != CLOSE_BRACE
  {
    match f
    case Number(n) => NumberStart(n);
    case _ =>
  }

  lemma NumberStart(n: NumberForm)
    requires WellFormedNumber(n)
    ensures var s := NumberText(n); s != [] && (s[0] == MINUS || 48 <= s[0] <= 57)
  {
  }

  lemma DelimitedAfter(b: Text, rest: Text)
    requires IsBlanks(b) && Delimited(rest)
    ensures Delimited(b + rest)
  {
    if b == [] {
      assert b + rest == rest;
    }
  }

  lemma WordIsRead(rt: Runtime, name: Text, rest: Text)
    requires WellFormed(Word(name))
    ensures ParseValue(rt, false, name + rest) == Ok((Meaning(rt, Word(name)), rest))
  {
    var s := name + rest;
    SplitAppend(name, rest);
    if name == Lit("null") {
      SplitAppend(Lit("null"), rest);
    } else {
      Differs(s, Lit("null"), 0);
      if name == Lit("true") {
        SplitAppend(Lit("true"), rest);
      } else {
        Differs(s, Lit("true"), 0);
        SplitAppend(Lit("false"), rest);
      }
      WordsDiffer();
    }
  }

  lemma WordsDiffer()
    ensures Lit("true") != Lit("null") && Lit("false") != Lit("null") && Lit("true") != Lit("false")
  {
    assert Lit("true")[0] == 116 && Lit("null")[0] == 110 && Lit("false")[0] == 102;
  }

  lemma NumberIsRead(rt: Runtime, n: NumberForm, rest: Text)
    requires WellFormedNumber(n) && Delimited(rest)
    ensures ParseValue(rt, false, NumberText(n) + rest) == Ok((Meaning(rt, Number(n)), rest))
  {
    NumberScanned(n);
    ParsePrintNumber(rt, false, NumberText(n), rest);
    NumberMeans(rt, n);
  }

  lemma NumberMeans(rt: Runtime, n: NumberForm)
    requires WellFormedNumber(n)
    ensures Meaning(rt, Number(n))
         == if IsFloatForm(n) then TFloat(rt.parseFloat(NumberText(n))) else TInt(ParseInt(NumberText(n)))
  {
    if !IsFloatForm(n) {
      IntegerIsRead(n);
    }
  }

  lemma {:induction false} FormIsRead(rt: Runtime, f: Form, rest: Text)
    requires WellFormed(f) && CleanTree(Meaning(rt, f)) && Delimited(rest)
    ensures ParseValue(rt, false, Render(f, rest)) == Ok((Meaning(rt, f), rest))
    decreases f, 1
  {
    match f
    case Word(name) => WordIsRead(rt, name, rest);
    case Number(n) => NumberIsRead(rt, n, rest);
    case String(parts, t) => StringIsRead(rt, parts, t, rest);
    case List(lead, items) =>
      if items == [] {
        EmptyListIsRead(rt, lead, rest);
      } else {
        ItemsAreRead(rt, items, rest);
        ListIsRead(rt, lead, items, rest);
      }
    case Dict(lead, members) =>
      if members == [] {
        EmptyDictIsRead(rt, lead, rest);
      } else {
        MembersAreRead(rt, members, rest);
        DictIsRead(rt, lead, members, rest);
      }
  }

  lemma StringIsRead(rt: Runtime, parts: seq<Text>, t: Text, rest: Text)
    requires SpellsText(parts, t) && Utf8.Encodable(t)
    ensures ParseValue(rt, false, [QUOTE] + Concat(parts, [QUOTE] + rest)) == Ok((TStr(t), rest))
  {
    ConsTail(QUOTE, Concat(parts, [QUOTE] + rest));
    SpelledTextIsRead(parts, t, rest);
  }

  lemma EmptyListIsRead(rt: Runtime, lead: Text, rest: Text)
    requires IsBlanks(lead)
    ensures ParseValue(rt, false, [OPEN_BRACKET] + (lead + ([CLOSE_BRACKET] + rest))) == Ok((TArr([]), rest))
  {
    ConsTail(OPEN_BRACKET, lead + ([CLOSE_BRACKET] + rest));
    BlanksSkipped(lead, [CLOSE_BRACKET] + rest);
    ConsTail(CLOSE_BRACKET, rest);
  }

  lemma EmptyDictIsRead(rt: Runtime, lead: Text, rest: Text)
    requires IsBlanks(lead)
    ensures ParseValue(rt, false, [OPEN_BRACE] + (lead + ([CLOSE_BRACE] + rest))) == Ok((TObj([]), rest))
  {
    ConsTail(OPEN_BRACE, lead + ([CLOSE_BRACE] + rest));
    BlanksSkipped(lead, [CLOSE_BRACE] + rest);
    ConsTail(CLOSE_BRACE, rest);
  }

  lemma ListIsRead(rt: Runtime, lead: Text, items: seq<ListItem>, rest: Text)
    requires IsBlanks(lead) && items != [] && WellFormedItem(items[0])
    requires ParseItems(rt, false, RenderItems(items, rest)) == Ok((ItemMeanings(rt, items), rest))
    ensures ParseValue(rt, false, Render(List(lead, items), rest)) == Ok((Meaning(rt, List(lead, items)), rest))
  {
    var body := RenderItems(items, rest);
    RenderedItemsStart(items, rest);
    ConsTail(OPEN_BRACKET, lead + body);
    BlanksSkipped(lead, body);
  }

  lemma RenderedItemsStart(items: seq<ListItem>, rest: Text)
    requires items != [] && WellFormedItem(items[0])
    ensures var s := RenderItems(items, rest); s != [] && !IsBlank(s[0]) && s[0] != CLOSE_BRACKET
  {
    FormStart(items[0].form, items[0].after +
      if |items| == 1 then [CLOSE_BRACKET] + rest else [COMMA] + (items[0].next + RenderItems(items[1..], rest)));
  }

  lemma DictIsRead(rt: Runtime, lead: Text, members: seq<DictMember>, rest: Text)
    requires IsBlanks(lead) && members != []
    requires ParseMembers(rt, false, RenderMembers(members, rest)) == Ok((MemberMeanings(rt, members), rest))
    ensures ParseValue(rt, false, Render(Dict(lead, members), rest)) == Ok((Meaning(rt, Dict(lead, members)), rest))
  {
    var body := RenderMembers(members, rest);
    ConsTail(OPEN_BRACE, lead + body);
    BlanksSkipped(lead, body);
  }

  lemma CleanTail(items: seq<Tree>)
    requires items != [] && CleanTrees(items)
    ensures CleanTree(items[0]) && CleanTrees(items[1..])
  {
  }

  lemma CleanPairsTail(pairs: seq<(Text, Tree)>)
    requires pairs != [] && CleanPairs(pairs)
    ensures Utf8.Encodable(pairs[0].0) && CleanTree(pairs[0].1) && CleanPairs(pairs[1..])
  {
  }

  lemma {:induction false} ItemsAreRead(rt: Runtime, items: seq<ListItem>, rest: Text)
    requires items != [] && forall i | 0 <= i < |items| :: WellFormedItem(items[i])
    requires CleanTrees(ItemMeanings(rt, items))
    ensures ParseItems(rt, false, RenderItems(items, rest)) == Ok((ItemMeanings(rt, items), rest))
    decreases items, 0
  {
    CleanTail(ItemMeanings(rt, items));
    var item := items[0];
    if |items| == 1 {
      var mark := [CLOSE_BRACKET] + rest;
      DelimitedAfter(item.after, mark);
      FormIsRead(rt, item.form, item.after + mark);
      BlanksSkipped(item.after, mark);
      ConsTail(CLOSE_BRACKET, rest);
      assert ItemMeanings(rt, items) == [Meaning(rt, item.form)];
    } else {
      var more := RenderItems(items[1..], rest);
      var mark := [COMMA] + (item.next + more);
      ItemsAreRead(rt, items[1..], rest);
      RenderedItemsStart(items[1..], rest);
      DelimitedAfter(item.after, mark);
      FormIsRead(rt, item.form, item.after + mark);
      BlanksSkipped(item.after, mark);
      ConsTail(COMMA, item.next + more);
      BlanksSkipped(item.next, more);
    }
  }

  /** A key, its colon and its value up to the mark behind it. */
  lemma MemberIsRead(rt: Runtime, m: DictMember, value: Text, tree: Tree, mark: CodePoint, more: Text)
    requires WellFormedMember(m) && Utf8.Encodable(m.key)
    requires value != [] && !IsBlank(value[0])
    requires ParseValue(rt, false, value) == Ok((tree, m.after + ([mark] + more)))
    requires mark == CLOSE_BRACE || mark == COMMA
    requires mark == COMMA ==> ParseMembers(rt, false, SkipBlanks(more)).Ok?
    ensures ParseMembers(rt, false, RenderKey(m, value))
         == if mark == CLOSE_BRACE then Ok(([(m.key, tree)], more))
            else var r := ParseMembers(rt, false, SkipBlanks(more)).value; Ok(([(m.key, tree)] + r.0, r.1))
  {
    var colon := [COLON] + (m.afterColon + value);
    ConsTail(QUOTE, Concat(m.parts, [QUOTE] + (m.beforeColon + colon)));
    SpelledTextIsRead(m.parts, m.key, m.beforeColon + colon);
    BlanksSkipped(m.beforeColon, colon);
    ConsTail(COLON, m.afterColon + value);
    BlanksSkipped(m.afterColon, value);
    BlanksSkipped(m.after, [mark] + more);
    ConsTail(mark, more);
  }

  lemma {:induction false} MembersAreRead(rt: Runtime, members: seq<DictMember>, rest: Text)
    requires members != [] && forall i | 0 <= i < |members| :: WellFormedMember(members[i])
    requires CleanPairs(MemberMeanings(rt, members))
    ensures ParseMembers(rt, false, RenderMembers(members, rest)) == Ok((MemberMeanings(rt, members), rest))
    decreases members, 0
  {
    CleanPairsTail(MemberMeanings(rt, members));
    var m := members[0];
    if |members| == 1 {
      var after := m.after + ([CLOSE_BRACE] + rest);
      DelimitedAfter(m.after, [CLOSE_BRACE] + rest);
      FormIsRead(rt, m.form, after);
      FormStart(m.form, after);
      MemberIsRead(rt, m, Render(m.form, after), Meaning(rt, m.form), CLOSE_BRACE, rest);
      assert MemberMeanings(rt, members) == [(m.key, Meaning(rt, m.form))];
    } else {
      var more := RenderMembers(members[1..], rest);
      var after := m.after + ([COMMA] + (m.next + more));
      MembersAreRead(rt, members[1..], rest);
      BlanksSkipped(m.next, more);
      DelimitedAfter(m.after, [COMMA] + (m.next + more));
      FormIsRead(rt, m.form, after);
      FormStart(m.form, after);
      MemberIsRead(rt, m, Render(m.form, after), Meaning(rt, m.form), COMMA, m.next + more);
    }
  }

  // ----- whatever is read has a form that says it -----

  lemma {:induction false} SkippedBlanks(s: Text) returns (b: Text)
    ensures IsBlanks(b) && s == b + SkipBlanks(s)
  {
    if s != [] && IsBlank(s[0]) {
      var more := SkippedBlanks(s[1..]);
      b := [s[0]] + more;
      assert s == [s[0]] + s[1..];
    } else {
      b := [];
    }
  }

  lemma ScalarWasForm(rt: Runtime, s: Text) returns (f: Form)
    requires ParseScalar(rt, s).Ok?
    ensures WellFormed(f) && Meaning(rt, f) == ParseScalar(rt, s).value.0
    ensures s == Render(f, ParseScalar(rt, s).value.1)
  {
    WordsDiffer();
    if StartsWith(s, Lit("null")) {
      f := Word(Lit("null"));
    } else if StartsWith(s, Lit("true")) {
      f := Word(Lit("true"));
    } else if StartsWith(s, Lit("false")) {
      f := Word(Lit("false"));
    } else {
      var n := NumberWasForm(s);
      f := Number(n);
      NumberMeans(rt, n);
      NumberRendered(s, ScanNumber(s).value.0, n);
    }
  }

  lemma NumberRendered(s: Text, k: nat, n: NumberForm)
    requires k <= |s| && s[..k] == NumberText(n)
    ensures s == Render(Number(n), s[k..])
  {
    assert s == s[..k] + s[k..];
  }

  lemma {:induction false} ValueWasForm(rt: Runtime, strict: bool, s: Text) returns (f: Form)
    requires ParseValue(rt, strict, s).Ok?
    ensures WellFormed(f) && Meaning(rt, f) == ParseValue(rt, strict, s).value.0
    ensures s == Render(f, ParseValue(rt, strict, s).value.1)
    decreases |s|, 0
  {
    assert s == [s[0]] + s[1..];
    if s[0] == QUOTE {
      var parts := ReadTextWasSpelled(s[1..]);
      f := String(parts, ParseString(s[1..]).value.0);
    } else if s[0] == OPEN_BRACE {
      f := DictWasForm(rt, strict, s);
    } else if s[0] == OPEN_BRACKET {
      f := ListWasForm(rt, strict, s);
    } else {
      f := ScalarWasForm(rt, s);
    }
  }

  lemma {:induction false} ListWasForm(rt: Runtime, strict: bool, s: Text) returns (f: Form)
    requires ParseValue(rt, strict, s).Ok? && s[0] == OPEN_BRACKET
    ensures WellFormed(f) && Meaning(rt, f) == ParseValue(rt, strict, s).value.0
    ensures s == Render(f, ParseValue(rt, strict, s).value.1)
    decreases |s|, 0, 0
  {
    var lead := SkippedBlanks(s[1..]);
    var body := SkipBlanks(s[1..]);
    assert s == [OPEN_BRACKET] + (lead + body);
    if body[0] == CLOSE_BRACKET {
      f := List(lead, []);
      assert body == [CLOSE_BRACKET] + body[1..];
    } else {
      var items := ItemsWereForms(rt, strict, body);
      f := List(lead, items);
    }
  }

  lemma {:induction false} DictWasForm(rt: Runtime, strict: bool, s: Text) returns (f: Form)
    requires ParseValue(rt, strict, s).Ok? && s[0] == OPEN_BRACE
    ensures WellFormed(f) && Meaning(rt, f) == ParseValue(rt, strict, s).value.0
    ensures s == Render(f, ParseValue(rt, strict, s).value.1)
    decreases |s|, 0, 0
  {
    var lead := SkippedBlanks(s[1..]);
    var body := SkipBlanks(s[1..]);
    assert s == [OPEN_BRACE] + (lead + body);
    if body[0] == CLOSE_BRACE {
      f := Dict(lead, []);
      assert body == [CLOSE_BRACE] + body[1..];
    } else {
      var members := MembersWereForms(rt, strict, body);
      f := Dict(lead, members);
    }
  }

  lemma {:induction false} ItemsWereForms(rt: Runtime, strict: bool, s: Text) returns (items: seq<ListItem>)
    requires ParseItems(rt, strict, s).Ok?
    ensures items != [] && forall i | 0 <= i < |items| :: WellFormedItem(items[i])
    ensures ItemMeanings(rt, items) == ParseItems(rt, strict, s).value.0
    ensures s == RenderItems(items, ParseItems(rt, strict, s).value.1)
    decreases |s|, 1
  {
    var (tree, rest) := ParseValue(rt, strict, s).value;
    var form := ValueWasForm(rt, strict, s);
    var b := SkippedBlanks(rest);
    var after := SkipBlanks(rest);
    assert after == [after[0]] + after[1..];
    if after[0] == CLOSE_BRACKET {
      items := [ListItem(form, b, [])];
      assert ItemMeanings(rt, items) == [tree];
    } else {
      var next := SkippedBlanks(after[1..]);
      var more := ItemsWereForms(rt, strict, SkipBlanks(after[1..]));
      items := [ListItem(form, b, next)] + more;
      ConsItem(rt, ListItem(form, b, next), more, ParseItems(rt, strict, s).value.1);
    }
  }

  lemma ConsItem(rt: Runtime, item: ListItem, more: seq<ListItem>, rest: Text)
    requires more != [] && WellFormedItem(item) && forall i | 0 <= i < |more| :: WellFormedItem(more[i])
    ensures var items := [item] + more;
      && (forall i | 0 <= i < |items| :: WellFormedItem(items[i]))
      && ItemMeanings(rt, items) == [Meaning(rt, item.form)] + ItemMeanings(rt, more)
      && RenderItems(items, rest)
         == Render(item.form, item.after + ([COMMA] + (item.next + RenderItems(more, rest))))
  {
    ConsTail(item, more);
    var items := [item] + more;
    forall i | 0 <= i < |items| ensures WellFormedItem(items[i]) {
      assert i > 0 ==> items[i] == more[i - 1];
    }
  }

  lemma {:induction false} MembersWereForms(rt: Runtime, strict: bool, s: Text) returns (members: seq<DictMember>)
    requires ParseMembers(rt, strict, s).Ok?
    ensures members != [] && forall i | 0 <= i < |members| :: WellFormedMember(members[i])
    ensures MemberMeanings(rt, members) == ParseMembers(rt, strict, s).value.0
    ensures s == RenderMembers(members, ParseMembers(rt, strict, s).value.1)
    decreases |s|, 1
  {
    var m, value := KeyWasSpelled(rt, strict, s);
    AfterMember(rt, strict, s, value);
    var rest := ParseValue(rt, strict, value).value.1;
    var form := ValueWasForm(rt, strict, value);
    var b := SkippedBlanks(rest);
    var after := SkipBlanks(rest);
    if after[0] == CLOSE_BRACE {
      members := LastMember(rt, s, m, form, value, rest, b, after);
    } else {
      var next := SkippedBlanks(after[1..]);
      var more := MembersWereForms(rt, strict, SkipBlanks(after[1..]));
      members := MoreMembers(
        rt, s, m, form, value, rest, b, after, next, more, ParseMembers(rt, strict, SkipBlanks(after[1..])).value.1);
    }
  }

  /** How reading members goes on behind the first value. */
  lemma AfterMember(rt: Runtime, strict: bool, s: Text, value: Text)
    requires ParseMembers(rt, strict, s).Ok?
    requires value == SkipBlanks(SkipBlanks(ParseString(s[1..]).value.1)[1..]) && ParseValue(rt, strict, value).Ok?
    ensures var (key, tree) := (ParseString(s[1..]).value.0, ParseValue(rt, strict, value).value.0);
      var after := SkipBlanks(ParseValue(rt, strict, value).value.1);
      && after != []
      && (after[0] == CLOSE_BRACE ==> ParseMembers(rt, strict, s) == Ok(([(key, tree)], after[1..])))
      && (after[0] != CLOSE_BRACE ==>
            var r := ParseMembers(rt, strict, SkipBlanks(after[1..]));
            after[0] == COMMA && r.Ok? && ParseMembers(rt, strict, s) == Ok(([(key, tree)] + r.value.0, r.value.1)))
  {
  }

  lemma LastMember(
    rt: Runtime, s: Text, m: DictMember, form: Form, value: Text, rest: Text, b: Text, after: Text)
    returns (members: seq<DictMember>)
    requires WellFormedMember(m) && WellFormed(form) && IsBlanks(b)
    requires s == RenderKey(m, value) && value == Render(form, rest) && rest == b + after
    requires after != [] && after[0] == CLOSE_BRACE
    ensures members != [] && forall i | 0 <= i < |members| :: WellFormedMember(members[i])
    ensures MemberMeanings(rt, members) == [(m.key, Meaning(rt, form))]
    ensures s == RenderMembers(members, after[1..])
  {
    var last := m.(form := form, after := b);
    members := [last];
    assert after == [CLOSE_BRACE] + after[1..];
    SameKey(m, last, value);
    OneMember(rt, last, after[1..]);
  }

  lemma MoreMembers(
    rt: Runtime, s: Text, m: DictMember, form: Form, value: Text, rest: Text, b: Text, after: Text,
    next: Text, more: seq<DictMember>, end: Text)
    returns (members: seq<DictMember>)
    requires WellFormedMember(m) && WellFormed(form) && IsBlanks(b) && IsBlanks(next)
    requires s == RenderKey(m, value) && value == Render(form, rest) && rest == b + after
    requires after != [] && after[0] == COMMA
    requires more != [] && forall i | 0 <= i < |more| :: WellFormedMember(more[i])
    requires after[1..] == next + RenderMembers(more, end)
    ensures members != [] && forall i | 0 <= i < |members| :: WellFormedMember(members[i])
    ensures MemberMeanings(rt, members) == [(m.key, Meaning(rt, form))] + MemberMeanings(rt, more)
    ensures s == RenderMembers(members, end)
  {
    var first := m.(form := form, after := b, next := next);
    members := [first] + more;
    assert after == [COMMA] + after[1..];
    SameKey(m, first, value);
    ConsMember(rt, first, more, end);
  }

  lemma SameKey(m: DictMember, n: DictMember, value: Text)
    requires n == m.(form := n.form, after := n.after, next := n.next)
    ensures RenderKey(m, value) == RenderKey(n, value)
  {
  }

  lemma OneMember(rt: Runtime, m: DictMember, rest: Text)
    ensures RenderMembers([m], rest) == RenderKey(m, Render(m.form, m.after + ([CLOSE_BRACE] + rest)))
    ensures MemberMeanings(rt, [m]) == [(m.key, Meaning(rt, m.form))]
  {
    assert [m][1..] == [];
  }

  lemma ConsMember(rt: Runtime, m: DictMember, more: seq<DictMember>, rest: Text)
    requires more != [] && WellFormedMember(m) && forall i | 0 <= i < |more| :: WellFormedMember(more[i])
    ensures var members := [m] + more;
      && (forall i | 0 <= i < |members| :: WellFormedMember(members[i]))
      && MemberMeanings(rt, members) == [(m.key, Meaning(rt, m.form))] + MemberMeanings(rt, more)
      && RenderMembers(members, rest)
         == RenderKey(m, Render(m.form, m.after + ([COMMA] + (m.next + RenderMembers(more, rest)))))
  {
    ConsTail(m, more);
    var members := [m] + more;
    forall i | 0 <= i < |members| ensures WellFormedMember(members[i]) {
      assert i > 0 ==> members[i] == more[i - 1];
    }
  }

  /** The key at the start of the members and the text of its value. */
  lemma KeyWasSpelled(rt: Runtime, strict: bool, s: Text) returns (m: DictMember, value: Text)
    requires ParseMembers(rt, strict, s).Ok?
    ensures WellFormedMember(m) && m.after == [] && m.next == []
    ensures s == RenderKey(m, value) && |value| < |s|
    ensures m.key == ParseString(s[1..]).value.0
    ensures value == SkipBlanks(SkipBlanks(ParseString(s[1..]).value.1)[1..])
    ensures ParseValue(rt, strict, value).Ok?
  {
    var (key, rest) := ParseString(s[1..]).value;
    var parts := ReadTextWasSpelled(s[1..]);
    var colon := SkipBlanks(rest);
    var b1 := SkippedBlanks(rest);
    var b2 := SkippedBlanks(colon[1..]);
    value := SkipBlanks(colon[1..]);
    m := DictMember(parts, key, b1, b2, Word(Lit("null")), [], []);
    assert colon == [COLON] + colon[1..];
    assert s == [QUOTE] + s[1..];
  }

  // ----- the strict reader is the grammar -----

  lemma {:induction false} ValidIsClean(tree: Tree, v: Json)
    requires NoDuplicateKeys(tree) && Keeps(tree, v) && Valid(v)
    ensures CleanTree(tree)
  {
    match tree
    case TArr(items) =>
      forall i | 0 <= i < |items| ensures CleanTree(items[i]) {
        ValidIsClean(items[i], v.items[i]);
      }
    case TObj(pairs) =>
      forall i | 0 <= i < |pairs| ensures Utf8.Encodable(pairs[i].0) && CleanTree(pairs[i].1) {
        ValidIsClean(pairs[i].1, v.fields[pairs[i].0]);
      }
    case _ =>
  }

  /** The text is this form between blanks. */
  ghost predicate IsTextOf(text: Text, lead: Text, f: Form, trail: Text) {
    IsBlanks(lead) && IsBlanks(trail) && WellFormed(f) && text == lead + Render(f, trail)
  }

  lemma TextIsRead(rt: Runtime, text: Text, lead: Text, f: Form, trail: Text)
    requires IsTextOf(text, lead, f, trail) && CleanTree(Meaning(rt, f))
    ensures ReadTree(rt, false, text) == Ok(Meaning(rt, f)) && text != []
  {
    FormStart(f, trail);
    BlanksSkipped(lead, Render(f, trail));
    FormIsRead(rt, f, trail);
    BlanksSkipped(trail, []);
    assert trail + [] == trail;
  }

  lemma ReadTextWasForm(rt: Runtime, strict: bool, text: Text) returns (lead: Text, f: Form, trail: Text)
    requires ReadTree(rt, strict, text).Ok?
    ensures IsTextOf(text, lead, f, trail) && Meaning(rt, f) == ReadTree(rt, strict, text).value
  {
    var s := SkipBlanks(text);
    lead := SkippedBlanks(text);
    f := ValueWasForm(rt, strict, s);
    trail := SkippedBlanks(ParseValue(rt, strict, s).value.1);
    assert trail + [] == trail;
  }

  /** The strict reader accepts a text with a value iff the text is a form of it, in any spelling and
      with any blanks, that repeats no key at any depth, and the value is valid. */
  lemma StrictLoadsIsTheGrammar(rt: Runtime, text: Text, v: Json)
    ensures StrictLoadsText(rt, text) == Ok(v) <==>
      && Valid(v)
      && exists lead, f, trail ::
           IsTextOf(text, lead, f, trail) && NoDuplicateKeys(Meaning(rt, f)) && ToJson(Meaning(rt, f)) == v
  {
    if StrictLoadsText(rt, text) == Ok(v) {
      StrictValue(rt, SkipBlanks(text));
      var lead, f, trail := ReadTextWasForm(rt, true, text);
    }
    if Valid(v) {
      if lead, f, trail :|
        IsTextOf(text, lead, f, trail) && NoDuplicateKeys(Meaning(rt, f)) && ToJson(Meaning(rt, f)) == v
      {
        FormLoads(rt, text, lead, f, trail);
      }
    }
  }

  lemma FormLoads(rt: Runtime, text: Text, lead: Text, f: Form, trail: Text)
    requires IsTextOf(text, lead, f, trail) && NoDuplicateKeys(Meaning(rt, f)) && Valid(ToJson(Meaning(rt, f)))
    ensures StrictLoadsText(rt, text) == Ok(ToJson(Meaning(rt, f)))
  {
    NothingIsLost(Meaning(rt, f));
    ValidIsClean(Meaning(rt, f), ToJson(Meaning(rt, f)));
    TextIsRead(rt, text, lead, f, trail);
    StrictValue(rt, SkipBlanks(text));
  }

  /** The names of numbers that are not finite get a code of their own. */
  lemma NonFiniteNames(rt: Runtime)
    ensures StrictLoadsText(rt, Lit("NaN")) == Err(Format("json_non_finite_number"))
    ensures StrictLoadsText(rt, Lit("Infinity")) == Err(Format("json_non_finite_number"))
    ensures StrictLoadsText(rt, Lit("-Infinity")) == Err(Format("json_non_finite_number"))
  {
    NameIsRefused(rt, Lit("NaN"));
    NameIsRefused(rt, Lit("Infinity"));
    NameIsRefused(rt, Lit("-Infinity"));
  }

  lemma NameIsRefused(rt: Runtime, name: Text)
    requires name == Lit("NaN") || name == Lit("Infinity") || name == Lit("-Infinity")
    ensures StrictLoadsText(rt, name) == Err(Format("json_non_finite_number"))
  {
    assert name[0] == 78 || name[0] == 73 || name[0] == 45;
    Differs(name, Lit("null"), 0);
    Differs(name, Lit("true"), 0);
    Differs(name, Lit("false"), 0);
    assert SkipBlanks(name) == name;
  }
}
