/** `strip_think`: three substitutions and a strip over text with think tags. */
module ThinkBlocks {
  import opened Base

  const LESS: CodePoint := 60
  const GREATER: CodePoint := 62
  const SLASH: CodePoint := 47

  // Case-insensitive letters; two of them have non-ASCII spellings.

  predicate IsT(c: CodePoint) { c == 116 || c == 84 }
  predicate IsH(c: CodePoint) { c == 104 || c == 72 }
  predicate IsI(c: CodePoint) { c == 105 || c == 73 || c == 0x130 || c == 0x131 }
  predicate IsN(c: CodePoint) { c == 110 || c == 78 }
  predicate IsK(c: CodePoint) { c == 107 || c == 75 || c == 0x212A }

  /** The five letters at the start of the text. */
  predicate IsName(s: Text) {
    |s| >= 5 && IsT(s[0]) && IsH(s[1]) && IsI(s[2]) && IsN(s[3]) && IsK(s[4])
  }

  /** Either case of each letter, and the characters beyond ASCII that fold to them. */
  lemma NameSpelledOut(s: Text)
    ensures IsName(s) <==>
      && |s| >= 5
      && s[0] in Lit("tT") && s[1] in Lit("hH") && (s[2] in Lit("iI") || s[2] == 0x130 || s[2] == 0x131)
      && s[3] in Lit("nN") && (s[4] in Lit("kK") || s[4] == 0x212A)
  {
    assert Lit("tT") == [116, 84] && Lit("hH") == [104, 72] && Lit("iI") == [105, 73];
    assert Lit("nN") == [110, 78] && Lit("kK") == [107, 75];
  }

  /** What is used of `\w`: the letters of the name count, the angles do not. */
  ghost predicate KnowsWords(word: CodePoint -> bool) {
    (forall c: CodePoint :: IsK(c) ==> word(c)) && !word(LESS) && !word(GREATER)
  }

  /** The position just after the first `>`. */
  function TagEnd(s: Text): (r: Option<nat>)
    ensures r.Some? ==> 0 < r.value <= |s|
  {
    if s == [] then None
    else if s[0] == GREATER then Some(1)
    else
      match TagEnd(s[1..])
      case None => None
      case Some(n) => Some(n + 1)
  }

  /** `think\b[^>]*>` at the start of the text: its length. */
  function TagBody(word: CodePoint -> bool, s: Text): (r: Option<nat>)
    ensures r.Some? ==> 0 < r.value <= |s|
  {
    if !IsName(s) || (if |s| == 5 then !word(s[4]) else word(s[4]) == word(s[5])) then None
    else
      match TagEnd(s[5..])
      case None => None
      case Some(n) => Some(5 + n)
  }

  /** `<think\b[^>]*>`. */
  function OpenTag(word: CodePoint -> bool, s: Text): (r: Option<nat>)
    ensures r.Some? ==> 0 < r.value <= |s|
  {
    if s == [] || s[0] != LESS then None
    else
      match TagBody(word, s[1..])
      case None => None
      case Some(n) => Some(n + 1)
  }

  /** `</?think\b[^>]*>`. */
  function AnyTag(word: CodePoint -> bool, s: Text): (r: Option<nat>)
    ensures r.Some? ==> 0 < r.value <= |s|
  {
    if |s| >= 2 && s[0] == LESS && s[1] == SLASH then
      match TagBody(word, s[2..])
      case None => None
      case Some(n) => Some(n + 2)
    else OpenTag(word, s)
  }

  /** `</think>`. */
  predicate IsClose(s: Text) {
    |s| >= 8 && s[0] == LESS && s[1] == SLASH && IsName(s[2..]) && s[7] == GREATER
  }

  /** Where the first closing tag starts. */
  function FirstClose(s: Text): (r: Option<nat>)
    ensures r.Some? ==> r.value + 8 <= |s|
  {
    if IsClose(s) then Some(0)
    else if s == [] then None
    else
      match FirstClose(s[1..])
      case None => None
      case Some(n) => Some(n + 1)
  }

  /** `<think\b[^>]*>.*?</think>`. */
  function Block(word: CodePoint -> bool, s: Text): (r: Option<nat>)
    ensures r.Some? ==> 0 < r.value <= |s|
  {
    match OpenTag(word, s)
    case None => None
    case Some(n) =>
      match FirstClose(s[n..])
      case None => None
      case Some(c) => Some(n + c + 8)
  }

  /** First pass: remove every complete block. */
  function RemoveBlocks(word: CodePoint -> bool, s: Text): Text
    decreases |s|
  {
    if s == [] then []
    else
      match Block(word, s)
      case Some(n) => RemoveBlocks(word, s[n..])
      case None => [s[0]] + RemoveBlocks(word, s[1..])
  }

  /** Second pass: cut the text at the first opening tag. */
  function CutOpen(word: CodePoint -> bool, s: Text): (r: Text)
    ensures |r| <= |s| && r == s[..|r|]
  {
    if s == [] || OpenTag(word, s).Some? then [] else [s[0]] + CutOpen(word, s[1..])
  }

  /** Third pass: remove single tags. */
  function RemoveTags(word: CodePoint -> bool, s: Text): Text
    decreases |s|
  {
    if s == [] then []
    else
      match AnyTag(word, s)
      case Some(n) => RemoveTags(word, s[n..])
      case None => [s[0]] + RemoveTags(word, s[1..])
  }

  function StripThink(word: CodePoint -> bool, text: Text): Text {
    Strip(RemoveTags(word, CutOpen(word, RemoveBlocks(word, text))))
  }

  // ----- for every text: the output is a subsequence, and the second pass leaves no opening tag -----

  ghost predicate IsSubsequence(a: Text, b: Text) {
    a == [] || (b != [] && ((a[0] == b[0] && IsSubsequence(a[1..], b[1..])) || IsSubsequence(a, b[1..])))
  }

  lemma SubsequenceDrop(a: Text, b: Text)
    requires a != [] && IsSubsequence(a, b)
    ensures IsSubsequence(a[1..], b)
    decreases |b|
  {
    if !(a[0] == b[0] && IsSubsequence(a[1..], b[1..])) {
      SubsequenceDrop(a, b[1..]);
    }
  }

  lemma {:induction false} SubsequenceTransitive(a: Text, b: Text, c: Text)
    requires IsSubsequence(a, b) && IsSubsequence(b, c)
    ensures IsSubsequence(a, c)
    decreases |c|
  {
    if a != [] {
      if b[0] == c[0] && IsSubsequence(b[1..], c[1..]) {
        if a[0] == b[0] && IsSubsequence(a[1..], b[1..]) {
          SubsequenceTransitive(a[1..], b[1..], c[1..]);
        } else {
          SubsequenceTransitive(a, b[1..], c[1..]);
        }
      } else {
        SubsequenceTransitive(a, b, c[1..]);
      }
    }
  }

  lemma {:induction false} SuffixSubsequence(s: Text, n: nat, a: Text)
    requires n <= |s| && IsSubsequence(a, s[n..])
    ensures IsSubsequence(a, s)
  {
    if n > 0 {
      assert s[1..][n - 1..] == s[n..];
      SuffixSubsequence(s[1..], n - 1, a);
    }
  }

  lemma KeepFirst(s: Text, a: Text)
    requires s != [] && IsSubsequence(a, s[1..])
    ensures IsSubsequence([s[0]] + a, s)
  {
    ConsTail(s[0], a);
  }

  lemma {:induction false} SelfSubsequence(s: Text)
    ensures IsSubsequence(s, s)
  {
    if s != [] {
      SelfSubsequence(s[1..]);
    }
  }

  lemma {:induction false} PrefixSubsequence(s: Text, n: nat)
    requires n <= |s|
    ensures IsSubsequence(s[..n], s)
  {
    if n > 0 {
      PrefixSubsequence(s[1..], n - 1);
      assert s[..n][1..] == s[1..][..n - 1];
    }
  }

  lemma {:induction false} RemoveBlocksSubsequence(word: CodePoint -> bool, s: Text)
    ensures IsSubsequence(RemoveBlocks(word, s), s)
    decreases |s|
  {
    if s != [] {
      match Block(word, s)
      case Some(n) =>
        RemoveBlocksSubsequence(word, s[n..]);
        SuffixSubsequence(s, n, RemoveBlocks(word, s[n..]));
      case None =>
        RemoveBlocksSubsequence(word, s[1..]);
        KeepFirst(s, RemoveBlocks(word, s[1..]));
    }
  }

  lemma {:induction false} RemoveTagsSubsequence(word: CodePoint -> bool, s: Text)
    ensures IsSubsequence(RemoveTags(word, s), s)
    decreases |s|
  {
    if s != [] {
      match AnyTag(word, s)
      case Some(n) =>
        RemoveTagsSubsequence(word, s[n..]);
        SuffixSubsequence(s, n, RemoveTags(word, s[n..]));
      case None =>
        RemoveTagsSubsequence(word, s[1..]);
        KeepFirst(s, RemoveTags(word, s[1..]));
    }
  }

  lemma StripSubsequence(s: Text)
    ensures IsSubsequence(Strip(s), s)
  {
    var t := TrimLeft(s);
    TrimLeftSuffix(s);
    TrimRightPrefix(t);
    PrefixSubsequence(t, |TrimRight(t)|);
    SuffixSubsequence(s, |s| - |t|, TrimRight(t));
  }

  /** Nothing is invented: the output only leaves characters out. */
  lemma OutputIsSubsequence(word: CodePoint -> bool, text: Text)
    ensures IsSubsequence(StripThink(word, text), text)
  {
    var a := RemoveBlocks(word, text);
    var b := CutOpen(word, a);
    var c := RemoveTags(word, b);
    RemoveBlocksSubsequence(word, text);
    PrefixSubsequence(a, |b|);
    RemoveTagsSubsequence(word, b);
    StripSubsequence(c);
    SubsequenceTransitive(Strip(c), c, b);
    SubsequenceTransitive(Strip(c), b, a);
    SubsequenceTransitive(Strip(c), a, text);
  }

  lemma {:induction false} TagEndAppend(s: Text, rest: Text)
    requires TagEnd(s).Some?
    ensures TagEnd(s + rest) == TagEnd(s)
  {
    if s[0] != GREATER {
      DropAppend(s, 1, rest);
      TagEndAppend(s[1..], rest);
    }
  }

  /** A tag found in a text is still found when more text follows. */
  lemma OpenTagAppend(word: CodePoint -> bool, s: Text, rest: Text)
    requires OpenTag(word, s).Some?
    ensures OpenTag(word, s + rest) == OpenTag(word, s)
  {
    DropAppend(s, 1, rest);
    DropAppend(s[1..], 5, rest);
    TagEndAppend(s[1..][5..], rest);
  }

  lemma {:induction false} NoTagBeforeCut(word: CodePoint -> bool, s: Text, i: nat)
    requires i < |CutOpen(word, s)|
    ensures OpenTag(word, s[i..]).None?
  {
    if i > 0 {
      NoTagBeforeCut(word, s[1..], i - 1);
      assert s[1..][i - 1..] == s[i..];
    }
  }

  /** After the second pass no opening tag is left anywhere. */
  lemma SecondPassLeavesNoOpeningTag(word: CodePoint -> bool, s: Text, i: nat)
    requires i <= |CutOpen(word, s)|
    ensures OpenTag(word, CutOpen(word, s)[i..]).None?
  {
    var r := CutOpen(word, s);
    assert s[i..] == r[i..] + s[|r|..];
    if i < |r| {
      NoTagBeforeCut(word, s, i);
      if OpenTag(word, r[i..]).Some? {
        OpenTagAppend(word, r[i..], s[|r|..]);
      }
    }
  }

  // ----- texts made of visible segments and think blocks -----

  /** A visible stretch, or a complete block: letters of the name, attributes, content
      and the letters of the closing name. */
  datatype Segment =
    | Visible(t: Text)
    | Hidden(name: Text, attributes: Text, content: Text, closing: Text)

  function OpeningTag(name: Text, attributes: Text): Text {
    [LESS] + (name + (attributes + [GREATER]))
  }

  function ClosingTag(name: Text): Text {
    [LESS, SLASH] + (name + [GREATER])
  }

  predicate IsTagText(word: CodePoint -> bool, name: Text, attributes: Text) {
    && |name| == 5 && IsName(name)
    && GREATER !in attributes
    && (attributes != [] ==> !word(attributes[0]))
  }

  predicate WellFormed(word: CodePoint -> bool, segment: Segment) {
    match segment
    case Visible(_) => true
    case Hidden(name, attributes, content, closing) =>
      IsTagText(word, name, attributes) && FirstClose(content).None? && |closing| == 5 && IsName(closing)
  }

  function SegmentText(segment: Segment, rest: Text): Text {
    match segment
    case Visible(t) => t + rest
    case Hidden(name, attributes, content, closing) =>
      OpeningTag(name, attributes) + (content + (ClosingTag(closing) + rest))
  }

  /** The segments one after another, then `rest`. */
  function Spell(segments: seq<Segment>, rest: Text): Text {
    if segments == [] then rest else SegmentText(segments[0], Spell(segments[1..], rest))
  }

  function VisibleText(segments: seq<Segment>): Text {
    if segments == [] then []
    else (if segments[0].Visible? then segments[0].t else []) + VisibleText(segments[1..])
  }

  /** The letters of the name and no word character after them, as far as the text goes. */
  predicate NameHead(word: CodePoint -> bool, s: Text) {
    IsName(s) && (|s| == 5 || !word(s[5]))
  }

  /** A tag begins here, closed later or not. */
  predicate TagHead(word: CodePoint -> bool, s: Text) {
    && s != [] && s[0] == LESS
    && (NameHead(word, s[1..]) || (|s| >= 2 && s[1] == SLASH && NameHead(word, s[2..])))
  }

  /** No tag begins anywhere in the text; other angles may. */
  ghost predicate HeadFree(word: CodePoint -> bool, s: Text) {
    forall i | 0 <= i <= |s| :: !TagHead(word, s[i..])
  }

  /** The visible text before the first block. */
  function Lead(segments: seq<Segment>): Text {
    if segments == [] || segments[0].Hidden? then [] else segments[0].t + Lead(segments[1..])
  }

  /** The visible text neither has the head of a tag between two blocks nor forms one when the blocks
      are gone. */
  ghost predicate CleanVisible(word: CodePoint -> bool, segments: seq<Segment>) {
    && (forall i | 0 <= i <= |segments| :: HeadFree(word, Lead(segments[i..])))
    && HeadFree(word, VisibleText(segments))
  }

  /** A block that never closes. */
  datatype Unterminated = Unterminated(name: Text, attributes: Text, content: Text)

  function OpenEnd(open: Option<Unterminated>): Text {
    match open
    case None => []
    case Some(u) => OpeningTag(u.name, u.attributes) + u.content
  }

  predicate WellFormedEnd(word: CodePoint -> bool, open: Option<Unterminated>) {
    open.Some? ==> IsTagText(word, open.value.name, open.value.attributes) && FirstClose(open.value.content).None?
  }

  lemma {:induction false} TagEndAt(a: Text, rest: Text)
    requires GREATER !in a
    ensures TagEnd(a + ([GREATER] + rest)) == Some(|a| + 1)
  {
    if a == [] {
      assert a + ([GREATER] + rest) == [GREATER] + rest;
    } else {
      DropAppend(a, 1, [GREATER] + rest);
      TagEndAt(a[1..], rest);
    }
  }

  /** An opening tag is found with exactly its own length, whatever follows. */
  lemma OpeningTagFound(word: CodePoint -> bool, name: Text, attributes: Text, rest: Text)
    requires KnowsWords(word) && IsTagText(word, name, attributes)
    ensures OpenTag(word, OpeningTag(name, attributes) + rest) == Some(|OpeningTag(name, attributes)|)
    ensures (OpeningTag(name, attributes) + rest)[|OpeningTag(name, attributes)|..] == rest
  {
    var tag := OpeningTag(name, attributes);
    var body := name + (attributes + ([GREATER] + rest));
    assert tag + rest == [LESS] + body;
    ConsTail(LESS, body);
    SplitAppend(name, attributes + ([GREATER] + rest));
    TagEndAt(attributes, rest);
    SplitAppend(tag, rest);
    assert word(body[4]) && body[5] == (attributes + ([GREATER] + rest))[0];
  }

  lemma ClosingTagFound(name: Text, rest: Text)
    requires |name| == 5 && IsName(name)
    ensures IsClose(ClosingTag(name) + rest) && (ClosingTag(name) + rest)[8..] == rest
  {
    var s := ClosingTag(name) + rest;
    assert s[2..] == name + ([GREATER] + rest);
  }

  /** A closing tag cannot start inside the content and end inside the tag after it. */
  lemma {:induction false} FirstCloseAfter(content: Text, name: Text, rest: Text)
    requires FirstClose(content).None? && |name| == 5 && IsName(name)
    ensures FirstClose(content + (ClosingTag(name) + rest)) == Some(|content|)
  {
    var tail := ClosingTag(name) + rest;
    ClosingTagFound(name, rest);
    if content == [] {
      assert content + tail == tail;
    } else {
      DropAppend(content, 1, tail);
      FirstCloseAfter(content[1..], name, rest);
      NoEarlyClose(content, tail);
    }
  }

  lemma NoEarlyClose(content: Text, tail: Text)
    requires content != [] && !IsClose(content) && tail != [] && tail[0] == LESS
    ensures !IsClose(content + tail)
  {
    var s := content + tail;
    if |content| >= 8 {
      assert s[2..][..5] == content[2..][..5];
    } else {
      assert s[|content|] == LESS;
      assert |s| >= 8 ==> forall k | 0 <= k < 5 :: s[2..][k] == s[k + 2];
    }
  }

  lemma NotAtVisible(word: CodePoint -> bool, s: Text)
    requires s != [] && s[0] != LESS
    ensures Block(word, s).None? && OpenTag(word, s).None? && AnyTag(word, s).None?
  {
  }

  lemma DropOne(word: CodePoint -> bool, s: Text, n: nat)
    requires s != [] && Block(word, s) == Some(n)
    ensures n <= |s| && RemoveBlocks(word, s) == RemoveBlocks(word, s[n..])
  {
  }

  /** No opening tag begins inside the text when this follows it. */
  ghost predicate NoOpening(word: CodePoint -> bool, t: Text, rest: Text) {
    forall i | 0 <= i < |t| :: OpenTag(word, t[i..] + rest).None?
  }

  lemma NoOpeningTail(word: CodePoint -> bool, t: Text, rest: Text)
    requires t != [] && NoOpening(word, t, rest)
    ensures OpenTag(word, t + rest).None? && NoOpening(word, t[1..], rest)
  {
    assert t[0..] == t;
    forall i | 0 <= i < |t[1..]| ensures OpenTag(word, t[1..][i..] + rest).None? {
      assert t[1..][i..] == t[i + 1..];
    }
  }

  lemma KeepUnopened(word: CodePoint -> bool, s: Text)
    requires s != [] && OpenTag(word, s).None?
    ensures RemoveBlocks(word, s) == [s[0]] + RemoveBlocks(word, s[1..])
    ensures CutOpen(word, s) == [s[0]] + CutOpen(word, s[1..])
  {
  }

  lemma {:induction false} BlocksPastVisible(word: CodePoint -> bool, t: Text, rest: Text)
    requires NoOpening(word, t, rest)
    ensures RemoveBlocks(word, t + rest) == t + RemoveBlocks(word, rest)
    ensures CutOpen(word, t + rest) == t + CutOpen(word, rest)
  {
    if t == [] {
      assert t + rest == rest;
      Associate([], [], RemoveBlocks(word, rest));
      Associate([], [], CutOpen(word, rest));
    } else {
      NoOpeningTail(word, t, rest);
      DropAppend(t, 1, rest);
      KeepUnopened(word, t + rest);
      BlocksPastVisible(word, t[1..], rest);
      ConsAgain(t, RemoveBlocks(word, rest));
      ConsAgain(t, CutOpen(word, rest));
    }
  }

  /** An opening tag that begins in a text has its head there, if what follows is a tag or nothing. */
  lemma HeadOfTag(word: CodePoint -> bool, s: Text, x: Text)
    requires KnowsWords(word) && s != [] && (x == [] || x[0] == LESS)
    requires OpenTag(word, s + x).Some?
    ensures TagHead(word, s)
  {
    var u := s + x;
    BodyHasHead(word, u[1..]);
    if |s| >= 6 {
      assert s[1..][..5] == u[1..][..5];
      assert forall k | 0 <= k < 5 :: s[1..][k] == u[1..][k];
      assert |s| > 6 ==> s[1..][5] == u[1..][5];
    }
  }

  lemma BodyHasHead(word: CodePoint -> bool, s: Text)
    requires KnowsWords(word) && TagBody(word, s).Some?
    ensures |s| > 5 && NameHead(word, s)
  {
  }

  lemma TagHasHead(word: CodePoint -> bool, s: Text)
    requires KnowsWords(word) && AnyTag(word, s).Some?
    ensures TagHead(word, s)
  {
    if |s| >= 2 && s[1] == SLASH {
      BodyHasHead(word, s[2..]);
    } else {
      BodyHasHead(word, s[1..]);
    }
  }

  lemma HeadFreeUnopened(word: CodePoint -> bool, t: Text, more: Text, x: Text)
    requires KnowsWords(word) && HeadFree(word, t + more) && (x == [] || x[0] == LESS)
    ensures NoOpening(word, t, more + x)
  {
    forall i | 0 <= i < |t| ensures OpenTag(word, t[i..] + (more + x)).None? {
      DropAppend(t, i, more);
      Associate(t[i..], more, x);
      if OpenTag(word, (t[i..] + more) + x).Some? {
        HeadOfTag(word, t[i..] + more, x);
      }
    }
  }

  lemma {:induction false} HeadFreeStays(word: CodePoint -> bool, s: Text)
    requires KnowsWords(word) && HeadFree(word, s)
    ensures RemoveTags(word, s) == s
  {
    if s != [] {
      assert s[0..] == s;
      if AnyTag(word, s).Some? {
        TagHasHead(word, s);
      }
      forall i | 0 <= i <= |s[1..]| ensures !TagHead(word, s[1..][i..]) {
        DropDrop(s, 1, i);
      }
      HeadFreeStays(word, s[1..]);
      assert s == [s[0]] + s[1..];
    }
  }

  lemma ConsAgain<T>(t: seq<T>, rest: seq<T>)
    requires t != []
    ensures [t[0]] + (t[1..] + rest) == t + rest
  {
  }

  lemma DropDrop<T>(s: seq<T>, m: nat, n: nat)
    requires m + n <= |s|
    ensures s[m..][n..] == s[m + n..]
  {
  }

  lemma BlockLength(word: CodePoint -> bool, s: Text, n: nat, c: nat)
    requires OpenTag(word, s) == Some(n) && FirstClose(s[n..]) == Some(c)
    ensures Block(word, s) == Some(n + c + 8)
  {
  }

  /** The block found at the start of a text is dropped with its closing tag. */
  lemma BlockOf(word: CodePoint -> bool, s: Text, n: nat, c: nat)
    requires s != [] && OpenTag(word, s) == Some(n) && FirstClose(s[n..]) == Some(c)
    ensures c + 8 <= |s[n..]| && RemoveBlocks(word, s) == RemoveBlocks(word, s[n..][c + 8..])
  {
    BlockLength(word, s, n, c);
    DropDrop(s, n, c + 8);
    DropOne(word, s, n + c + 8);
  }

  lemma InnerEnd(content: Text, close: Text, rest: Text)
    requires |close| == 8
    ensures |content| + 8 <= |content + (close + rest)| && (content + (close + rest))[|content| + 8..] == rest
  {
  }

  lemma BlockVanishes(word: CodePoint -> bool, segment: Segment, rest: Text)
    requires KnowsWords(word) && WellFormed(word, segment) && segment.Hidden?
    ensures RemoveBlocks(word, SegmentText(segment, rest)) == RemoveBlocks(word, rest)
  {
    var tag, close := OpeningTag(segment.name, segment.attributes), ClosingTag(segment.closing);
    var inner := segment.content + (close + rest);
    OpeningTagFound(word, segment.name, segment.attributes, inner);
    FirstCloseAfter(segment.content, segment.closing, rest);
    InnerEnd(segment.content, close, rest);
    BlockOf(word, tag + inner, |tag|, |segment.content|);
  }

  /** A spelling is its leading visible text and then a block, the end, or nothing. */
  lemma {:induction false} SpellLead(segments: seq<Segment>, rest: Text) returns (x: Text)
    requires rest == [] || rest[0] == LESS
    ensures Spell(segments, rest) == Lead(segments) + x && (x == [] || x[0] == LESS)
  {
    if segments == [] || segments[0].Hidden? {
      x := Spell(segments, rest);
      Associate([], [], x);
    } else {
      x := SpellLead(segments[1..], rest);
      Associate(segments[0].t, Lead(segments[1..]), x);
    }
  }

  lemma {:induction false} FirstPass(word: CodePoint -> bool, segments: seq<Segment>, rest: Text)
    requires KnowsWords(word) && forall i | 0 <= i < |segments| :: WellFormed(word, segments[i])
    requires forall i | 0 <= i <= |segments| :: HeadFree(word, Lead(segments[i..]))
    requires rest == [] || rest[0] == LESS
    ensures RemoveBlocks(word, Spell(segments, rest)) == VisibleText(segments) + RemoveBlocks(word, rest)
  {
    if segments == [] {
      assert VisibleText(segments) + RemoveBlocks(word, rest) == RemoveBlocks(word, rest);
    } else {
      var tail := Spell(segments[1..], rest);
      forall i | 0 <= i <= |segments[1..]| ensures HeadFree(word, Lead(segments[1..][i..])) {
        DropDrop(segments, 1, i);
        assert HeadFree(word, Lead(segments[i + 1..]));
      }
      FirstPass(word, segments[1..], rest);
      var t := if segments[0].Visible? then segments[0].t else [];
      Associate(t, VisibleText(segments[1..]), RemoveBlocks(word, rest));
      if segments[0].Visible? {
        assert segments[0..] == segments;
        var x := SpellLead(segments[1..], rest);
        HeadFreeUnopened(word, t, Lead(segments[1..]), x);
        BlocksPastVisible(word, t, tail);
      } else {
        BlockVanishes(word, segments[0], tail);
      }
    }
  }

  lemma Associate<T>(a: seq<T>, b: seq<T>, c: seq<T>)
    ensures (a + b) + c == a + (b + c)
    ensures a == [] ==> a + b == b
  {
  }

  lemma {:induction false} NoCloseInside(s: Text, n: nat)
    requires n <= |s| && FirstClose(s).None?
    ensures FirstClose(s[n..]).None?
  {
    if n > 0 {
      NoCloseInside(s[1..], n - 1);
      assert s[1..][n - 1..] == s[n..];
    }
  }

  lemma {:induction false} NothingToRemove(word: CodePoint -> bool, s: Text)
    requires FirstClose(s).None?
    ensures RemoveBlocks(word, s) == s
  {
    if s != [] {
      NoCloseInside(s, 1);
      NothingToRemove(word, s[1..]);
      if OpenTag(word, s).Some? {
        NoCloseInside(s, OpenTag(word, s).value);
      }
    }
  }

  /** A tag in front of a text without closing tags keeps the first pass from doing anything, even
      where the attributes spell tags themselves. */
  lemma {:induction false} UnterminatedStays(word: CodePoint -> bool, a: Text, content: Text)
    requires GREATER !in a && FirstClose(content).None?
    ensures RemoveBlocks(word, a + ([GREATER] + content)) == a + ([GREATER] + content)
  {
    var s := a + ([GREATER] + content);
    if a == [] {
      assert s == [GREATER] + content;
      ConsTail(GREATER, content);
      NotAtVisible(word, s);
      NothingToRemove(word, content);
    } else {
      DropAppend(a, 1, [GREATER] + content);
      UnterminatedStays(word, a[1..], content);
      if OpenTag(word, s).Some? {
        OpenTagLength(word, a, content);
      }
      assert s == [s[0]] + s[1..];
    }
  }

  lemma EarlyEndIsNoTag(word: CodePoint -> bool, s: Text, n: nat)
    requires n < |s| && s[n] == GREATER
    ensures n < 6 ==> OpenTag(word, s).None?
  {
    if 0 < n < 6 {
      assert s[1..][n - 1] == GREATER;
    }
  }

  lemma OpenTagLength(word: CodePoint -> bool, a: Text, content: Text)
    requires GREATER !in a && OpenTag(word, a + ([GREATER] + content)).Some?
    ensures OpenTag(word, a + ([GREATER] + content)) == Some(|a| + 1)
    ensures (a + ([GREATER] + content))[|a| + 1..] == content
  {
    var s := a + ([GREATER] + content);
    assert s[|a|] == GREATER && s[|a| + 1..] == content;
    EarlyEndIsNoTag(word, s, |a|);
    if |a| >= 6 {
      DropAppend(a, 6, [GREATER] + content);
      TagEndAt(a[6..], content);
      assert s[1..][5..] == s[6..];
    }
  }

  lemma {:induction false} LaterPassesKeepVisible(word: CodePoint -> bool, t: Text, rest: Text)
    requires LESS !in t
    ensures CutOpen(word, t + rest) == t + CutOpen(word, rest)
    ensures RemoveTags(word, t) == t
  {
    if t == [] {
      assert t + rest == rest;
    } else {
      DropAppend(t, 1, rest);
      NotAtVisible(word, t + rest);
      NotAtVisible(word, t);
      LaterPassesKeepVisible(word, t[1..], rest);
      assert t == [t[0]] + t[1..];
    }
  }

  lemma EndShape(u: Unterminated)
    ensures OpeningTag(u.name, u.attributes) + u.content
         == [LESS] + (u.name + u.attributes) + ([GREATER] + u.content)
  {
  }

  lemma EndVanishes(word: CodePoint -> bool, open: Option<Unterminated>)
    requires KnowsWords(word) && WellFormedEnd(word, open)
    ensures CutOpen(word, RemoveBlocks(word, OpenEnd(open))) == []
    ensures RemoveBlocks(word, OpenEnd(open)) == [] || RemoveBlocks(word, OpenEnd(open))[0] == LESS
  {
    match open
    case None =>
    case Some(u) =>
      var a := [LESS] + (u.name + u.attributes);
      UnterminatedStays(word, a, u.content);
      EndShape(u);
      OpeningTagFound(word, u.name, u.attributes, u.content);
  }

  /** Think blocks are removed exactly: for visible segments between complete blocks, with or
      without an unterminated block at the end, what is left is the visible text, trimmed. Visible
      text may hold angles, as long as no tag begins in it. */
  lemma BlocksAreRemovedExactly(word: CodePoint -> bool, segments: seq<Segment>, open: Option<Unterminated>)
    requires KnowsWords(word)
    requires forall i | 0 <= i < |segments| :: WellFormed(word, segments[i])
    requires CleanVisible(word, segments) && WellFormedEnd(word, open)
    ensures StripThink(word, Spell(segments, OpenEnd(open))) == Strip(VisibleText(segments))
  {
    var visible := VisibleText(segments);
    var end := RemoveBlocks(word, OpenEnd(open));
    FirstPass(word, segments, OpenEnd(open));
    EndVanishes(word, open);
    Associate(visible, [], end);
    assert visible + [] == visible && [] + end == end;
    HeadFreeUnopened(word, visible, [], end);
    BlocksPastVisible(word, visible, end);
    HeadFreeStays(word, visible);
  }

  /** Visible text without any `<` is clean. */
  lemma {:induction false} PlainIsClean(word: CodePoint -> bool, segments: seq<Segment>)
    requires forall i | 0 <= i < |segments| :: segments[i].Visible? ==> LESS !in segments[i].t
    ensures CleanVisible(word, segments)
  {
    forall i | 0 <= i <= |segments| ensures HeadFree(word, Lead(segments[i..])) {
      PlainHasNoLess(segments[i..]);
    }
    PlainHasNoLess(segments);
  }

  lemma {:induction false} PlainHasNoLess(segments: seq<Segment>)
    requires forall i | 0 <= i < |segments| :: segments[i].Visible? ==> LESS !in segments[i].t
    ensures LESS !in VisibleText(segments) && LESS !in Lead(segments)
  {
    if segments != [] {
      PlainHasNoLess(segments[1..]);
    }
  }
}
