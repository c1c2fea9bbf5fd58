/** The receiver's header checks, by position: names compare without regard to case, one header a name. */
module Headers {
  import opened Base
  import opened Requests
  import opened Claims
  import opened Verifiers
  import opened Dependencies
  import opened Runtimes

  /** The same character, or the same letter in the other case. */
  predicate SameLetter(a: CodePoint, b: CodePoint) {
    a == b || (65 <= a <= 90 && b == a + 32) || (97 <= a <= 122 && b == a - 32)
  }

  predicate SameName(a: Text, b: Text) {
    |a| == |b| && forall i | 0 <= i < |a| :: SameLetter(a[i], b[i])
  }

  lemma LoweredIsSameName(a: Text, b: Text)
    ensures AsciiLower(a) == AsciiLower(b) <==> SameName(a, b)
  {
    var x, y := AsciiLower(a), AsciiLower(b);
    if x == y {
      forall i | 0 <= i < |a| ensures SameLetter(a[i], b[i]) {
        assert x[i] == y[i];
      }
    }
    if SameName(a, b) {
      forall i | 0 <= i < |a| ensures x[i] == y[i] {
        assert SameLetter(a[i], b[i]);
      }
    }
  }

  /** The header at this position has this name. */
  predicate Named(headers: seq<(Text, Text)>, name: Text, i: int) {
    0 <= i < |headers| && SameName(headers[i].0, name)
  }

  ghost predicate SentTwice(headers: seq<(Text, Text)>, name: Text) {
    exists i, j :: i < j && Named(headers, name, i) && Named(headers, name, j)
  }

  /** This position is the only one with the name. */
  ghost predicate SentOnceAt(headers: seq<(Text, Text)>, name: Text, i: int) {
    Named(headers, name, i) && forall j | Named(headers, name, j) :: j == i
  }

  ghost predicate NotSent(headers: seq<(Text, Text)>, name: Text) {
    forall i :: !Named(headers, name, i)
  }

  lemma NamedTail(headers: seq<(Text, Text)>, name: Text, i: int)
    requires headers != []
    ensures i > 0 ==> (Named(headers, name, i) <==> Named(headers[1..], name, i - 1))
  {
  }

  lemma {:induction false} ValuesByPosition(headers: seq<(Text, Text)>, name: Text)
    ensures |HeaderValues(headers, name)| == 0 ==> NotSent(headers, name)
    ensures |HeaderValues(headers, name)| == 1 ==>
      exists i :: SentOnceAt(headers, name, i) && HeaderValues(headers, name)[0] == headers[i].1
    ensures |HeaderValues(headers, name)| >= 2 ==> SentTwice(headers, name)
  {
    if headers != [] {
      var more := HeaderValues(headers[1..], name);
      ValuesByPosition(headers[1..], name);
      LoweredIsSameName(headers[0].0, name);
      forall i ensures i > 0 ==> (Named(headers, name, i) <==> Named(headers[1..], name, i - 1)) {
        NamedTail(headers, name, i);
      }
      if Named(headers, name, 0) {
        FirstIsNamed(headers, name);
      } else {
        FirstIsOther(headers, name);
      }
    }
  }

  lemma FirstIsNamed(headers: seq<(Text, Text)>, name: Text)
    requires headers != [] && Named(headers, name, 0)
    requires HeaderValues(headers, name) == [headers[0].1] + HeaderValues(headers[1..], name)
    requires |HeaderValues(headers[1..], name)| == 0 ==> NotSent(headers[1..], name)
    requires |HeaderValues(headers[1..], name)| == 1 ==> exists i :: SentOnceAt(headers[1..], name, i)
    requires |HeaderValues(headers[1..], name)| >= 2 ==> SentTwice(headers[1..], name)
    ensures |HeaderValues(headers, name)| == 1 ==>
      SentOnceAt(headers, name, 0) && HeaderValues(headers, name)[0] == headers[0].1
    ensures |HeaderValues(headers, name)| >= 2 ==> SentTwice(headers, name)
  {
    if |HeaderValues(headers[1..], name)| == 0 {
      forall j | Named(headers, name, j) ensures j == 0 {
        NamedTail(headers, name, j);
      }
    } else {
      var i :| Named(headers[1..], name, i);
      NamedTail(headers, name, i + 1);
      assert Named(headers, name, i + 1);
    }
  }

  lemma FirstIsOther(headers: seq<(Text, Text)>, name: Text)
    requires headers != [] && !Named(headers, name, 0)
    requires HeaderValues(headers, name) == HeaderValues(headers[1..], name)
    requires |HeaderValues(headers[1..], name)| == 0 ==> NotSent(headers[1..], name)
    requires |HeaderValues(headers[1..], name)| == 1 ==>
      exists i :: SentOnceAt(headers[1..], name, i) && HeaderValues(headers[1..], name)[0] == headers[1..][i].1
    requires |HeaderValues(headers[1..], name)| >= 2 ==> SentTwice(headers[1..], name)
    ensures |HeaderValues(headers, name)| == 0 ==> NotSent(headers, name)
    ensures |HeaderValues(headers, name)| == 1 ==>
      exists i :: SentOnceAt(headers, name, i) && HeaderValues(headers, name)[0] == headers[i].1
    ensures |HeaderValues(headers, name)| >= 2 ==> SentTwice(headers, name)
  {
    forall j ensures Named(headers, name, j) <==> Named(headers[1..], name, j - 1) {
      if j > 0 {
        NamedTail(headers, name, j);
      }
    }
    if |HeaderValues(headers, name)| == 1 {
      var i :| SentOnceAt(headers[1..], name, i) && HeaderValues(headers[1..], name)[0] == headers[1..][i].1;
      assert Named(headers, name, i + 1);
      assert SentOnceAt(headers, name, i + 1);
    } else if |HeaderValues(headers, name)| >= 2 {
      var i, j :| i < j && Named(headers[1..], name, i) && Named(headers[1..], name, j);
      assert Named(headers, name, i + 1) && Named(headers, name, j + 1);
    }
  }

  /** A header is read iff it is sent exactly once with a value that is not blank, and then as that value
      stripped; sent twice and not sent, or blank, are told apart. */
  lemma SingleHeaderIsExact(headers: seq<(Text, Text)>, name: Text)
    ensures SingleHeader(headers, name) == Err(Denied("capability_grant_header_duplicated")) <==>
      SentTwice(headers, name)
    ensures SingleHeader(headers, name) == Err(Denied("capability_grant_header_missing")) <==>
      NotSent(headers, name) || exists i :: SentOnceAt(headers, name, i) && Strip(headers[i].1) == []
    ensures forall v :: SingleHeader(headers, name) == Ok(v) <==>
      exists i :: SentOnceAt(headers, name, i) && v == Strip(headers[i].1) && v != []
  {
    ValuesByPosition(headers, name);
    HeaderCodesDiffer();
    var values := HeaderValues(headers, name);
    if |values| == 1 {
      var i :| SentOnceAt(headers, name, i) && values[0] == headers[i].1;
      assert forall j | SentOnceAt(headers, name, j) :: j == i;
    }
  }

  lemma HeaderCodesDiffer()
    ensures HEADER_DUPLICATED != REQUIRED_HEADER_MISSING
  {
    assert |HEADER_DUPLICATED.code| != |REQUIRED_HEADER_MISSING.code|;
  }

  // ----- the seven headers of the endpoint -----

  const SEVEN_NAMES: seq<Text> := [
    Lit("X-AI-Local-Capability-Grant"), Lit("X-AI-Local-Capability-Grant-ID"), Lit("X-Task-ID"), Lit("X-Trace-ID"),
    Lit("X-Agentic-Action-ID"), Lit("X-Agentic-Node-Attempt"), Lit("Idempotency-Key")]

  lemma SevenNames()
    ensures SEVEN_NAMES == [GRANT_HEADER] + BOUND_HEADER_NAMES
  {
  }

  /** The header of this name cannot be read, with this error, and those of the names before it can. */
  ghost predicate FailsFirstAt(headers: seq<(Text, Text)>, names: seq<Text>, i: int, e: Error) {
    && 0 <= i < |names| && SingleHeader(headers, names[i]) == Err(e)
    && forall j | 0 <= j < i :: SingleHeader(headers, names[j]).Ok?
  }

  lemma FailsFirstStill(headers: seq<(Text, Text)>, front: seq<Text>, last: Text, i: int, e: Error)
    requires FailsFirstAt(headers, front, i, e)
    ensures FailsFirstAt(headers, front + [last], i, e)
  {
    var names := front + [last];
    assert names[i] == front[i];
    forall j | 0 <= j < i ensures SingleHeader(headers, names[j]).Ok? {
      assert names[j] == front[j];
    }
  }

  lemma FailsAtLast(headers: seq<(Text, Text)>, front: seq<Text>, last: Text, e: Error)
    requires (forall k | k in front :: SingleHeader(headers, k).Ok?) && SingleHeader(headers, last) == Err(e)
    ensures FailsFirstAt(headers, front + [last], |front|, e)
  {
    var names := front + [last];
    forall j | 0 <= j < |front| ensures SingleHeader(headers, names[j]).Ok? {
      assert names[j] == front[j] && front[j] in front;
    }
  }

  /** A dict of headers is gathered iff each can be read; otherwise the first that cannot names the
      error. */
  lemma {:induction false} CollectIsExact(headers: seq<(Text, Text)>, names: seq<Text>)
    ensures CollectHeaders(headers, names).Err? ==>
      exists i :: FailsFirstAt(headers, names, i, CollectHeaders(headers, names).error)
    ensures CollectHeaders(headers, names).Ok? ==>
      forall k | k in names :: SingleHeader(headers, k) == Ok(CollectHeaders(headers, names).value[k])
    decreases |names|
  {
    if names != [] {
      var front, last := names[..|names| - 1], names[|names| - 1];
      assert names == front + [last];
      CollectIsExact(headers, front);
      var found := CollectHeaders(headers, front);
      if found.Err? {
        var i :| FailsFirstAt(headers, front, i, found.error);
        FailsFirstStill(headers, front, last, i, found.error);
      } else if SingleHeader(headers, last).Err? {
        FailsAtLast(headers, front, last, SingleHeader(headers, last).error);
      }
    }
  }

  /** The error of the token header or, when that can be read, of the first bound one that cannot. */
  function HeaderError(headers: seq<(Text, Text)>): Option<Error> {
    var token, bound := SingleHeader(headers, GRANT_HEADER), CollectHeaders(headers, BOUND_HEADER_NAMES);
    if token.Err? then Some(token.error) else if bound.Err? then Some(bound.error) else None
  }

  lemma HeaderErrorIsFirst(headers: seq<(Text, Text)>)
    ensures HeaderError(headers).Some? ==>
      exists i :: 0 <= i < 7 && SingleHeader(headers, SEVEN_NAMES[i]) == Err(HeaderError(headers).value)
        && forall j | 0 <= j < i :: SingleHeader(headers, SEVEN_NAMES[j]).Ok?
    ensures HeaderError(headers).None? ==> forall i | 0 <= i < 7 :: SingleHeader(headers, SEVEN_NAMES[i]).Ok?
  {
    SevenNames();
    CollectIsExact(headers, BOUND_HEADER_NAMES);
    var bound := CollectHeaders(headers, BOUND_HEADER_NAMES);
    if SingleHeader(headers, GRANT_HEADER).Err? {
      assert SEVEN_NAMES[0] == GRANT_HEADER;
    } else if bound.Err? {
      var i :| FailsFirstAt(headers, BOUND_HEADER_NAMES, i, bound.error);
      assert SEVEN_NAMES[i + 1] == BOUND_HEADER_NAMES[i];
      forall j | 0 <= j < i + 1 ensures SingleHeader(headers, SEVEN_NAMES[j]).Ok? {
        assert j > 0 ==> SEVEN_NAMES[j] == BOUND_HEADER_NAMES[j - 1];
      }
    } else {
      forall i | 0 <= i < 7 ensures SingleHeader(headers, SEVEN_NAMES[i]).Ok? {
        if i > 0 {
          assert SEVEN_NAMES[i] == BOUND_HEADER_NAMES[i - 1] && BOUND_HEADER_NAMES[i - 1] in BOUND_HEADER_NAMES;
        }
      }
    }
  }

  lemma HeaderErrorRefuses(rt: Runtime, call: Inbound)
    ensures var e := HeaderError(call.request.headers);
      if e.Some? then Prepare(rt, call) == Refusal(401, e.value.code)
      else !(Prepare(rt, call).Refusal? && Prepare(rt, call).status == 401)
  {
  }

  /** One of the seven headers cannot be read, and no earlier one; this is its code. */
  ghost predicate FirstBadCode(headers: seq<(Text, Text)>, code: string) {
    exists i :: 0 <= i < 7 && SingleHeader(headers, SEVEN_NAMES[i]).Err?
      && SingleHeader(headers, SEVEN_NAMES[i]).error.code == code
      && forall j | 0 <= j < i :: SingleHeader(headers, SEVEN_NAMES[j]).Ok?
  }

  /** The header checks come first: a request is refused with 401 iff one of the seven headers cannot be
      read, and with the code of the first such one. */
  lemma HeadersComeFirst(rt: Runtime, call: Inbound)
    ensures Prepare(rt, call).Refusal? && Prepare(rt, call).status == 401 <==>
      exists i :: 0 <= i < 7 && SingleHeader(call.request.headers, SEVEN_NAMES[i]).Err?
    ensures Prepare(rt, call).Refusal? && Prepare(rt, call).status == 401 ==>
      FirstBadCode(call.request.headers, Prepare(rt, call).detail)
  {
    HeaderErrorIsFirst(call.request.headers);
    HeaderErrorRefuses(rt, call);
  }

  ghost predicate AnySentTwice(headers: seq<(Text, Text)>) {
    exists k :: 0 <= k < 7 && SentTwice(headers, SEVEN_NAMES[k])
  }

  /** A second copy of any of the seven headers is refused before anything else happens. */
  lemma SecondCopyIsRefused(rt: Runtime, call: Inbound, k: nat)
    requires k < 7 && SentTwice(call.request.headers, SEVEN_NAMES[k])
    ensures Prepare(rt, call).Refusal? && Prepare(rt, call).status == 401
    ensures (forall j | 0 <= j < k :: SingleHeader(call.request.headers, SEVEN_NAMES[j]).Ok?) ==>
      Prepare(rt, call).detail == "capability_grant_header_duplicated"
  {
    HeadersComeFirst(rt, call);
    SingleHeaderIsExact(call.request.headers, SEVEN_NAMES[k]);
  }
}
