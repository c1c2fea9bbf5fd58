/** When `strip_think` leaves a tag behind: exactly when its third pass joins one together. */
module ThinkSplices {
  import opened Base
  import opened ThinkBlocks

  /** No opening or closing think tag starts anywhere. */
  ghost predicate TagFree(word: CodePoint -> bool, s: Text) {
    forall i | 0 <= i <= |s| :: AnyTag(word, s[i..]).None?
  }

  lemma TagFreeTail(word: CodePoint -> bool, s: Text, n: nat)
    requires TagFree(word, s) && n <= |s|
    ensures TagFree(word, s[n..])
  {
    forall i | 0 <= i <= |s[n..]| ensures AnyTag(word, s[n..][i..]).None? {
      assert s[n..][i..] == s[n + i..];
    }
  }

  lemma TagFreeCons(word: CodePoint -> bool, s: Text)
    requires s != [] && AnyTag(word, s).None? && TagFree(word, s[1..])
    ensures TagFree(word, s)
  {
    forall i | 0 <= i <= |s| ensures AnyTag(word, s[i..]).None? {
      if i == 0 {
        assert s[0..] == s;
      } else {
        assert s[i..] == s[1..][i - 1..];
      }
    }
  }

  lemma OpenIsAny(word: CodePoint -> bool, s: Text)
    requires OpenTag(word, s).Some?
    ensures AnyTag(word, s) == OpenTag(word, s)
  {
  }

  // ----- a text without tags is only trimmed -----

  lemma {:induction false} TagFreeStays(word: CodePoint -> bool, s: Text)
    requires TagFree(word, s)
    ensures RemoveBlocks(word, s) == s && CutOpen(word, s) == s && RemoveTags(word, s) == s
  {
    if s != [] {
      assert s[0..] == s;
      if OpenTag(word, s).Some? {
        OpenIsAny(word, s);
      }
      TagFreeTail(word, s, 1);
      TagFreeStays(word, s[1..]);
      assert s == [s[0]] + s[1..];
    }
  }

  /** Text without tags comes back trimmed, stray angles and all. */
  lemma TagFreeIsTrimmed(word: CodePoint -> bool, s: Text)
    requires TagFree(word, s)
    ensures StripThink(word, s) == Strip(s)
  {
    TagFreeStays(word, s);
  }

  // ----- a fixed point has no tags -----

  lemma {:induction false} BlocksShrink(word: CodePoint -> bool, s: Text)
    ensures |RemoveBlocks(word, s)| <= |s|
    ensures |RemoveBlocks(word, s)| == |s| ==> RemoveBlocks(word, s) == s
    decreases |s|
  {
    if s != [] {
      match Block(word, s)
      case Some(n) => BlocksShrink(word, s[n..]);
      case None =>
        BlocksShrink(word, s[1..]);
        assert s == [s[0]] + s[1..];
    }
  }

  lemma {:induction false} TagsShrink(word: CodePoint -> bool, s: Text)
    ensures |RemoveTags(word, s)| <= |s|
    ensures |RemoveTags(word, s)| == |s| ==> TagFree(word, s)
    decreases |s|
  {
    if s != [] {
      match AnyTag(word, s)
      case Some(n) => TagsShrink(word, s[n..]);
      case None =>
        TagsShrink(word, s[1..]);
        if |RemoveTags(word, s)| == |s| {
          TagFreeCons(word, s);
        }
    }
  }

  lemma StripShrinks(s: Text)
    ensures |Strip(s)| <= |s|
  {
  }

  /** A trimmed text is left alone iff it has no tag. */
  lemma FixedIsTagFree(word: CodePoint -> bool, s: Text)
    requires Strip(s) == s
    ensures StripThink(word, s) == s <==> TagFree(word, s)
  {
    var a := RemoveBlocks(word, s);
    var b := CutOpen(word, a);
    if StripThink(word, s) == s {
      BlocksShrink(word, s);
      TagsShrink(word, b);
      StripShrinks(RemoveTags(word, b));
      assert |a| == |s| && |b| == |s|;
      assert b == a[..|b|] == s;
    }
    if TagFree(word, s) {
      TagFreeIsTrimmed(word, s);
    }
  }

  // ----- trimming neither makes nor breaks a tag -----

  lemma {:induction false} TagEndInside(s: Text, m: nat)
    requires TagEnd(s).Some? && TagEnd(s).value <= m <= |s|
    ensures TagEnd(s[..m]) == TagEnd(s)
  {
    if s[0] != GREATER {
      TagEndInside(s[1..], m - 1);
      assert s[..m][1..] == s[1..][..m - 1];
    }
  }

  lemma TagBodyInside(word: CodePoint -> bool, s: Text, m: nat)
    requires TagBody(word, s).Some? && TagBody(word, s).value <= m <= |s|
    ensures TagBody(word, s[..m]) == TagBody(word, s)
  {
    assert s[..m][5..] == s[5..][..m - 5];
    TagEndInside(s[5..], m - 5);
  }

  lemma TagInside(word: CodePoint -> bool, s: Text, m: nat)
    requires AnyTag(word, s).Some? && AnyTag(word, s).value <= m <= |s|
    ensures AnyTag(word, s[..m]) == AnyTag(word, s)
  {
    if |s| >= 2 && s[1] == SLASH {
      assert s[..m][2..] == s[2..][..m - 2];
      TagBodyInside(word, s[2..], m - 2);
    } else {
      assert s[..m][1..] == s[1..][..m - 1];
      TagBodyInside(word, s[1..], m - 1);
    }
  }

  lemma TagBodyAppend(word: CodePoint -> bool, s: Text, rest: Text)
    requires TagBody(word, s).Some?
    ensures TagBody(word, s + rest) == TagBody(word, s)
  {
    DropAppend(s, 5, rest);
    TagEndAppend(s[5..], rest);
  }

  lemma TagAppend(word: CodePoint -> bool, s: Text, rest: Text)
    requires AnyTag(word, s).Some?
    ensures AnyTag(word, s + rest) == AnyTag(word, s)
  {
    if |s| >= 2 && s[1] == SLASH {
      DropAppend(s, 2, rest);
      TagBodyAppend(word, s[2..], rest);
    } else {
      DropAppend(s, 1, rest);
      TagBodyAppend(word, s[1..], rest);
    }
  }

  lemma {:induction false} TagEndsInGreater(s: Text)
    requires TagEnd(s).Some?
    ensures s[TagEnd(s).value - 1] == GREATER
  {
    if s[0] != GREATER {
      TagEndsInGreater(s[1..]);
    }
  }

  lemma TagEnds(word: CodePoint -> bool, s: Text)
    requires AnyTag(word, s).Some?
    ensures s[0] == LESS && s[AnyTag(word, s).value - 1] == GREATER
  {
    if |s| >= 2 && s[1] == SLASH {
      TagEndsInGreater(s[2..][5..]);
    } else {
      TagEndsInGreater(s[1..][5..]);
    }
  }

  /** What stripping cuts off at either end is white space. */
  lemma StripCuts(s: Text) returns (a: nat, b: nat)
    ensures a <= b <= |s| && Strip(s) == s[a..b]
    ensures forall i | 0 <= i < a || b <= i < |s| :: IsSpace(s[i])
  {
    var t := TrimLeft(s);
    a := |s| - |t|;
    b := a + |TrimRight(t)|;
    TrimLeftSuffix(s);
    TrimRightPrefix(t);
    TrimLeftCuts(s);
    TrimRightCuts(t);
    CutOff(s, a, t, b - a);
    CutTwice(s, a, t, b - a);
  }

  lemma CutOff(s: Text, a: nat, t: Text, n: nat)
    requires a <= |s| && n <= |t| && AllSpace(s[..a]) && AllSpace(t[n..])
    ensures (forall i | 0 <= i < a :: IsSpace(s[i])) && forall i | n <= i < |t| :: IsSpace(t[i])
  {
    forall i | 0 <= i < a ensures IsSpace(s[i]) {
      assert s[i] == s[..a][i];
    }
    forall i | n <= i < |t| ensures IsSpace(t[i]) {
      assert t[i] == t[n..][i - n];
    }
  }

  lemma CutTwice(s: Text, a: nat, t: Text, n: nat)
    requires a <= |s| && t == s[a..] && n <= |t| && forall i | n <= i < |t| :: IsSpace(t[i])
    ensures t[..n] == s[a..a + n] && forall i | a + n <= i < |s| :: IsSpace(s[i])
  {
    forall i | a + n <= i < |s| ensures IsSpace(s[i]) {
      assert s[i] == t[i - a];
    }
  }

  lemma StripKeepsTags(word: CodePoint -> bool, s: Text)
    ensures TagFree(word, Strip(s)) <==> TagFree(word, s)
  {
    var a, b := StripCuts(s);
    var r := s[a..b];
    if TagFree(word, r) {
      forall i | 0 <= i <= |s| ensures AnyTag(word, s[i..]).None? {
        if AnyTag(word, s[i..]).Some? {
          TagSurvives(word, s, a, b, i);
        }
      }
    }
    if TagFree(word, s) {
      forall i | 0 <= i <= |r| ensures AnyTag(word, r[i..]).None? {
        assert s[a + i..] == r[i..] + s[b..];
        if AnyTag(word, r[i..]).Some? {
          TagAppend(word, r[i..], s[b..]);
        }
      }
    }
  }

  lemma TagSurvives(word: CodePoint -> bool, s: Text, a: nat, b: nat, i: nat)
    requires a <= b <= |s| && i <= |s| && AnyTag(word, s[i..]).Some?
    requires forall i | 0 <= i < a || b <= i < |s| :: IsSpace(s[i])
    ensures !TagFree(word, s[a..b])
  {
    var n := AnyTag(word, s[i..]).value;
    TagEnds(word, s[i..]);
    assert s[i] == LESS && s[i + n - 1] == GREATER;
    TagInside(word, s[i..], b - i);
    assert s[i..][..b - i] == s[a..b][i - a..];
  }

  // ----- the third pass -----

  /** The third pass comes to this position: it is not inside a tag that is removed. */
  predicate Reached(word: CodePoint -> bool, s: Text, i: nat)
    requires i <= |s|
    decreases |s|
  {
    i == 0 ||
    match AnyTag(word, s)
    case Some(n) => n <= i && Reached(word, s[n..], i - n)
    case None => Reached(word, s[1..], i - 1)
  }

  /** A splice: a kept stretch of `k` characters stands right before a removed tag, and together with
      what is left behind that tag it begins a new one. A tag's head is so short that six characters
      are enough. */
  predicate Splices(word: CodePoint -> bool, s: Text, i: nat, k: nat) {
    && 1 <= k <= 6 && i + k <= |s|
    && Reached(word, s, i)
    && (forall j | i <= j < i + k :: AnyTag(word, s[j..]).None?)
    && AnyTag(word, s[i + k..]).Some?
    && AnyTag(word, s[i..i + k] + RemoveTags(word, s[i + k..][AnyTag(word, s[i + k..]).value..])).Some?
  }

  ghost predicate HasSplice(word: CodePoint -> bool, s: Text) {
    exists i, k :: Splices(word, s, i, k)
  }

  /** A stretch without tags is kept whole. */
  lemma {:induction false} KeptStretch(word: CodePoint -> bool, s: Text, k: nat)
    requires k <= |s| && forall j | 0 <= j < k :: AnyTag(word, s[j..]).None?
    ensures RemoveTags(word, s) == s[..k] + RemoveTags(word, s[k..])
    decreases k
  {
    NoStretch(s, RemoveTags(word, s));
    if k > 0 {
      forall j | 0 <= j < k - 1 ensures AnyTag(word, s[1..][j..]).None? {
        DropDrop(s, 1, j);
      }
      KeptStretch(word, s[1..], k - 1);
      DropDrop(s, 1, k - 1);
      ConsStretch(s, k, RemoveTags(word, s[k..]));
    }
  }

  lemma NoStretch(s: Text, x: Text)
    ensures s[0..] == s && s[..0] + x == x
  {
  }

  lemma ConsStretch(s: Text, k: nat, x: Text)
    requires 0 < k <= |s|
    ensures [s[0]] + (s[1..][..k - 1] + x) == s[..k] + x
  {
  }

  lemma TagDropped(word: CodePoint -> bool, s: Text)
    requires AnyTag(word, s).Some?
    ensures RemoveTags(word, s) == RemoveTags(word, s[AnyTag(word, s).value..])
  {
  }

  /** What the pass makes of the text from a position it comes to is a suffix of its result. */
  lemma {:induction false} ReachedSuffix(word: CodePoint -> bool, s: Text, i: nat) returns (m: nat)
    requires i <= |s| && Reached(word, s, i)
    ensures m <= |RemoveTags(word, s)| && RemoveTags(word, s)[m..] == RemoveTags(word, s[i..])
    decreases |s|
  {
    if i == 0 {
      m := 0;
      assert s[0..] == s;
    } else {
      match AnyTag(word, s)
      case Some(n) =>
        m := ReachedSuffix(word, s[n..], i - n);
        assert s[n..][i - n..] == s[i..];
      case None =>
        var before := ReachedSuffix(word, s[1..], i - 1);
        assert s[1..][i - 1..] == s[i..];
        m := before + 1;
        assert ([s[0]] + RemoveTags(word, s[1..]))[m..] == RemoveTags(word, s[1..])[before..];
    }
  }

  lemma SpliceLeavesTag(word: CodePoint -> bool, s: Text, i: nat, k: nat)
    requires Splices(word, s, i, k)
    ensures !TagFree(word, RemoveTags(word, s))
  {
    var m := ReachedSuffix(word, s, i);
    forall j | 0 <= j < k ensures AnyTag(word, s[i..][j..]).None? {
      assert s[i..][j..] == s[i + j..];
    }
    KeptStretch(word, s[i..], k);
    assert s[i..][..k] == s[i..i + k] && s[i..][k..] == s[i + k..];
    TagDropped(word, s[i + k..]);
    assert AnyTag(word, RemoveTags(word, s)[m..]).Some?;
  }

  lemma {:induction false} TagEndExists(s: Text)
    requires GREATER in s
    ensures TagEnd(s).Some?
  {
    if s[0] != GREATER {
      assert s == [s[0]] + s[1..];
      TagEndExists(s[1..]);
    }
  }

  /** Seven characters and the angle after them decide whether a tag begins, if one closes later. */
  lemma HeadDecides(word: CodePoint -> bool, s: Text, k: nat, x: Text)
    requires KnowsWords(word) && 7 <= k < |s| && s[k] == LESS && GREATER in s[k..]
    requires AnyTag(word, s[..k] + x).Some?
    ensures AnyTag(word, s).Some?
  {
    var t := s[..k] + x;
    if t[1] == SLASH {
      ClosingHead(word, s, k, x);
    } else {
      OpeningHead(word, s, k, x);
    }
  }

  lemma GreaterAfter(s: Text, m: nat, k: nat)
    requires m <= k <= |s| && GREATER in s[k..]
    ensures GREATER in s[m..]
  {
    assert s[m..] == s[m..k] + s[k..];
  }

  lemma BodyFromHead(word: CodePoint -> bool, s: Text)
    requires KnowsWords(word) && |s| > 5 && IsName(s) && !word(s[5]) && GREATER in s[5..]
    ensures TagBody(word, s).Some?
  {
    TagEndExists(s[5..]);
  }

  lemma HeadFromBody(word: CodePoint -> bool, s: Text)
    requires KnowsWords(word) && TagBody(word, s).Some?
    ensures |s| > 5 && IsName(s) && !word(s[5])
  {
  }

  lemma ClosingHead(word: CodePoint -> bool, s: Text, k: nat, x: Text)
    requires KnowsWords(word) && 7 <= k < |s| && s[k] == LESS && GREATER in s[k..]
    requires (s[..k] + x)[1] == SLASH && AnyTag(word, s[..k] + x).Some?
    ensures AnyTag(word, s).Some?
  {
    var t := s[..k] + x;
    HeadFromBody(word, t[2..]);
    assert forall j | 0 <= j < 5 :: s[2..][j] == t[2..][j];
    assert k > 7 ==> s[7] == t[7];
    assert s[2..][5..] == s[7..];
    GreaterAfter(s, 7, k);
    BodyFromHead(word, s[2..]);
  }

  lemma OpeningHead(word: CodePoint -> bool, s: Text, k: nat, x: Text)
    requires KnowsWords(word) && 7 <= k < |s| && s[k] == LESS && GREATER in s[k..]
    requires (s[..k] + x)[1] != SLASH && AnyTag(word, s[..k] + x).Some?
    ensures AnyTag(word, s).Some?
  {
    var t := s[..k] + x;
    HeadFromBody(word, t[1..]);
    assert forall j | 0 <= j < 6 :: s[1..][j] == t[1..][j];
    assert s[1..][5..] == s[6..];
    GreaterAfter(s, 6, k);
    BodyFromHead(word, s[1..]);
  }

  /** Where the first tag starts, or the end of the text. */
  lemma {:induction false} FirstTag(word: CodePoint -> bool, s: Text) returns (k: nat)
    ensures k <= |s| && forall j | 0 <= j < k :: AnyTag(word, s[j..]).None?
    ensures k < |s| ==> AnyTag(word, s[k..]).Some?
  {
    assert s[0..] == s;
    if s == [] || AnyTag(word, s).Some? {
      k := 0;
    } else {
      var after := FirstTag(word, s[1..]);
      k := after + 1;
      assert s[1..][after..] == s[k..];
      forall j | 0 <= j < k ensures AnyTag(word, s[j..]).None? {
        if j > 0 {
          assert s[1..][j - 1..] == s[j..];
        }
      }
    }
  }

  /** A kept character begins no tag in the result unless a splice starts there. */
  lemma NoSpliceHere(word: CodePoint -> bool, s: Text)
    requires KnowsWords(word) && s != [] && AnyTag(word, s).None? && forall k :: !Splices(word, s, 0, k)
    ensures AnyTag(word, RemoveTags(word, s)).None?
  {
    assert s[0..] == s;
    var k := FirstTag(word, s);
    KeptStretch(word, s, k);
    if k == |s| {
      assert s[..k] + RemoveTags(word, s[k..]) == s;
    } else if AnyTag(word, RemoveTags(word, s)).Some? {
      var n := AnyTag(word, s[k..]).value;
      TagDropped(word, s[k..]);
      TagEnds(word, s[k..]);
      assert s[k..][n - 1] in s[k..];
      if k <= 6 {
        assert s[0..0 + k] == s[..k];
        assert Splices(word, s, 0, k);
      } else {
        HeadDecides(word, s, k, RemoveTags(word, s[k..][n..]));
      }
    }
  }

  lemma ShiftSplice(word: CodePoint -> bool, s: Text, n: nat, i: nat, k: nat)
    requires 0 < n <= |s|
    requires AnyTag(word, s) == Some(n) || (AnyTag(word, s).None? && n == 1)
    requires Splices(word, s[n..], i, k)
    ensures Splices(word, s, n + i, k)
  {
    forall j | n + i <= j < n + i + k ensures AnyTag(word, s[j..]).None? {
      assert s[n..][j - n..] == s[j..];
    }
    assert s[n..][i + k..] == s[n + i + k..];
    assert s[n..][i..i + k] == s[n + i..n + i + k];
  }

  lemma {:induction false} NoSpliceNoTag(word: CodePoint -> bool, s: Text)
    requires KnowsWords(word) && !HasSplice(word, s)
    ensures TagFree(word, RemoveTags(word, s))
    decreases |s|
  {
    if s != [] {
      var n := if AnyTag(word, s).Some? then AnyTag(word, s).value else 1;
      if i, k :| Splices(word, s[n..], i, k) {
        ShiftSplice(word, s, n, i, k);
      }
      NoSpliceNoTag(word, s[n..]);
      if AnyTag(word, s).None? {
        NoSpliceHere(word, s);
        assert RemoveTags(word, s)[1..] == RemoveTags(word, s[1..]);
        TagFreeCons(word, RemoveTags(word, s));
      }
    }
  }

  /** The third pass leaves a tag iff it splices one together. */
  lemma TagsAreSpliced(word: CodePoint -> bool, s: Text)
    requires KnowsWords(word)
    ensures TagFree(word, RemoveTags(word, s)) <==> !HasSplice(word, s)
  {
    if i, k :| Splices(word, s, i, k) {
      SpliceLeavesTag(word, s, i, k);
    } else {
      NoSpliceNoTag(word, s);
    }
  }

  lemma StripTwice(s: Text)
    ensures Strip(Strip(s)) == Strip(s)
  {
    var t := TrimLeft(s);
    TrimLeftEnd(s);
    TrimRightEnd(t);
    TrimRightPrefix(t);
    StripFixesTrimmed(Strip(s));
  }

  /** The text that reaches the third pass. */
  function BeforeThird(word: CodePoint -> bool, text: Text): Text {
    CutOpen(word, RemoveBlocks(word, text))
  }

  /** Output without tags and a second application without effect are the same thing, and both hold
      exactly when the text before the third pass has no splice. */
  lemma CleanIffNoSplice(word: CodePoint -> bool, text: Text)
    requires KnowsWords(word)
    ensures TagFree(word, StripThink(word, text)) <==> !HasSplice(word, BeforeThird(word, text))
    ensures StripThink(word, StripThink(word, text)) == StripThink(word, text)
       <==> !HasSplice(word, BeforeThird(word, text))
  {
    var u := BeforeThird(word, text);
    var out := StripThink(word, text);
    TagsAreSpliced(word, u);
    StripKeepsTags(word, RemoveTags(word, u));
    StripTwice(RemoveTags(word, u));
    FixedIsTagFree(word, out);
  }

  lemma SpliceHasTag(word: CodePoint -> bool, s: Text, i: nat, k: nat)
    requires Splices(word, s, i, k)
    ensures !TagFree(word, s)
  {
    assert AnyTag(word, s[i + k..]).Some?;
  }

  /** A text without tags before the third pass is enough. */
  lemma TagFreeHasNoSplice(word: CodePoint -> bool, s: Text)
    requires TagFree(word, s)
    ensures !HasSplice(word, s)
  {
    if i, k :| Splices(word, s, i, k) {
      SpliceHasTag(word, s, i, k);
    }
  }

  /** A local condition that can be read off: no `<` within six characters before a tag. */
  lemma NoAngleBeforeTags(word: CodePoint -> bool, s: Text)
    requires forall i: nat, j: nat | i < j <= |s| && j <= i + 6 && AnyTag(word, s[j..]).Some? :: s[i] != LESS
    ensures !HasSplice(word, s)
  {
    if i: nat, k: nat :| Splices(word, s, i, k) {
      SpliceStartsWithAngle(word, s, i, k);
    }
  }

  lemma SpliceStartsWithAngle(word: CodePoint -> bool, s: Text, i: nat, k: nat)
    requires Splices(word, s, i, k)
    ensures s[i] == LESS
  {
    var n := AnyTag(word, s[i + k..]).value;
    TagEnds(word, s[i..i + k] + RemoveTags(word, s[i + k..][n..]));
  }

  // ----- the input that shows it -----

  const SPLICED := Lit("<th</think>ink>")
  const LEFT_OVER := Lit("<think>")

  lemma {:induction false} NoOpeningStays(word: CodePoint -> bool, s: Text)
    requires forall i | 0 <= i <= |s| :: OpenTag(word, s[i..]).None?
    ensures RemoveBlocks(word, s) == s && CutOpen(word, s) == s
  {
    if s != [] {
      assert s[0..] == s;
      forall i | 0 <= i <= |s[1..]| ensures OpenTag(word, s[1..][i..]).None? {
        assert s[1..][i..] == s[i + 1..];
      }
      NoOpeningStays(word, s[1..]);
      assert s == [s[0]] + s[1..];
    }
  }

  lemma SplicedHasNoOpening(word: CodePoint -> bool, i: nat)
    requires i <= |SPLICED|
    ensures OpenTag(word, SPLICED[i..]).None?
  {
    if i == 0 {
      assert SPLICED[0..][1..][2] == LESS;
    } else if i == 3 {
      assert SPLICED[3..][1..][0] == SLASH;
    }
  }

  lemma SplicedThird(word: CodePoint -> bool)
    requires KnowsWords(word)
    ensures RemoveTags(word, SPLICED) == LEFT_OVER
  {
    var s := SPLICED;
    SplicedStart(word);
    KeptStretch(word, s, 3);
    TailRemoved(word);
    SplicedParts();
  }

  lemma SplicedParts()
    ensures SPLICED[3..] == Lit("</think>") + Lit("ink>")
    ensures SPLICED[..3] + Lit("ink>") == LEFT_OVER
  {
  }

  lemma SplicedStart(word: CodePoint -> bool)
    ensures forall j | 0 <= j < 3 :: AnyTag(word, SPLICED[j..]).None?
  {
    forall j | 0 <= j < 3 ensures AnyTag(word, SPLICED[j..]).None? {
      SplicedHasNoOpening(word, j);
    }
  }

  lemma TailRemoved(word: CodePoint -> bool)
    requires KnowsWords(word)
    ensures RemoveTags(word, Lit("</think>") + Lit("ink>")) == Lit("ink>")
  {
    ClosingIsTag(word, Lit("ink>"));
    SplitAppend(Lit("</think>"), Lit("ink>"));
    LaterPassesKeepVisible(word, Lit("ink>"), []);
    TagDropped(word, Lit("</think>") + Lit("ink>"));
  }

  lemma ClosingIsTag(word: CodePoint -> bool, rest: Text)
    requires KnowsWords(word)
    ensures AnyTag(word, Lit("</think>") + rest) == Some(8)
  {
    var s := Lit("</think>");
    assert s[2..][5..] == [GREATER];
    assert TagBody(word, s[2..]) == Some(6);
    TagAppend(word, s, rest);
  }

  /** The third pass joins `<th` and `ink>` into an opening tag, which a second application cuts. */
  lemma TagLeftBehind(word: CodePoint -> bool)
    requires KnowsWords(word)
    ensures StripThink(word, SPLICED) == LEFT_OVER
    ensures AnyTag(word, LEFT_OVER).Some?
    ensures StripThink(word, LEFT_OVER) == []
  {
    forall i | 0 <= i <= |SPLICED| ensures OpenTag(word, SPLICED[i..]).None? {
      SplicedHasNoOpening(word, i);
    }
    NoOpeningStays(word, SPLICED);
    SplicedThird(word);
    assert IsTrimmed(LEFT_OVER);
    StripFixesTrimmed(LEFT_OVER);
    LeftOverIsTag(word);
  }

  lemma LeftOverIsTag(word: CodePoint -> bool)
    requires KnowsWords(word)
    ensures AnyTag(word, LEFT_OVER).Some?
    ensures StripThink(word, LEFT_OVER) == []
  {
    var s := LEFT_OVER;
    assert s[1..][5..] == [GREATER];
    assert OpenTag(word, s) == Some(7);
    OpenIsAny(word, s);
    TooShortToClose(s);
    NothingToRemove(word, s);
  }

  lemma {:induction false} TooShortToClose(s: Text)
    requires |s| < 8
    ensures FirstClose(s).None?
  {
    if s != [] {
      TooShortToClose(s[1..]);
    }
  }
}
