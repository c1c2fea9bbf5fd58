/** `require_capability_grant` for one request from start to end, and how it sits in the protocol. */
module Endpoint {
  import opened Base
  import opened Runtimes
  import opened Verifiers
  import opened RequiredClaims
  import opened Dependencies
  import opened Headers
  import opened Redeemers
  import opened Protocol

  /** The authority as one receiver sees it: the redemptions it was sent. */
  class Authority {
    var received: seq<Redemption>

    constructor ()
      ensures received == []
    {
      received := [];
    }

    /** One POST, and what the callback makes of the reply. */
    method Redeem(redemption: Redemption, reply: Reply) returns (r: RedeemResult)
      modifies this
      ensures received == old(received) + [redemption]
      ensures r == HttpRedeem(redemption, reply)
    {
      received := received + [redemption];
      r := HttpRedeem(redemption, reply);
    }
  }

  datatype Outcome = Admitted(grant: VerifiedGrant) | Rejected(status: int, detail: string)

  /** A local refusal, a refused or failed redemption, or the grant. */
  function OutcomeOf(prepared: Prepared, reply: Reply): Outcome {
    match prepared
    case Refusal(status, detail) => Rejected(status, detail)
    case Ready(grant, redemption, _) =>
      match Conclude(HttpRedeem(redemption, reply))
      case Some((status, detail)) => Rejected(status, detail)
      case None => Admitted(grant)
  }

  lemma {:induction false} CollectFails(headers: seq<(Text, Text)>, names: seq<Text>, n: nat)
    requires n <= |names| && CollectHeaders(headers, names[..n]).Err?
    ensures CollectHeaders(headers, names) == CollectHeaders(headers, names[..n])
    decreases |names|
  {
    if n < |names| {
      var front := names[..|names| - 1];
      assert front[..n] == names[..n];
      CollectFails(headers, front, n);
    } else {
      assert names[..n] == names;
    }
  }

  lemma CollectStep(headers: seq<(Text, Text)>, names: seq<Text>, i: nat)
    requires i < |names| && CollectHeaders(headers, names[..i]).Ok?
    ensures CollectHeaders(headers, names[..i + 1]) ==
      var value := SingleHeader(headers, names[i]);
      if value.Err? then Err(value.error) else Ok(CollectHeaders(headers, names[..i]).value[names[i] := value.value])
  {
    assert names[..i + 1][..i] == names[..i];
  }

  /** The dict of bound headers, filled name by name; the first bad one raises. */
  method CollectSingleHeaders(headers: seq<(Text, Text)>, names: seq<Text>) returns (r: Result<map<Text, Text>>)
    ensures r == CollectHeaders(headers, names)
  {
    var found: map<Text, Text> := map[];
    for i := 0 to |names|
      invariant CollectHeaders(headers, names[..i]) == Ok(found)
    {
      CollectStep(headers, names, i);
      var value := SingleHeader(headers, names[i]);
      if value.Err? {
        CollectFails(headers, names, i + 1);
        return Err(value.error);
      }
      found := found[names[i] := value.value];
    }
    assert names[..|names|] == names;
    return Ok(found);
  }

  /** The body of the second `try` block. */
  method CheckOnce(rt: Runtime, call: Inbound, token: Text, bound: map<Text, Text>)
    returns (r: Result<(VerifiedGrant, Redemption, map<Text, Text>)>)
    ensures r == CheckRequest(rt, call, token, bound)
  {
    var verified := VerifyRequest(rt, call, token, bound);
    if verified.Err? {
      return Err(verified.error);
    }
    var (grant, transport) := verified.value;
    var required := CheckRequired(rt, grant, call.dependency.required);
    if required.Err? {
      return Err(required.error);
    }
    var redemption := MakeRedemption(rt, call.dependency, token, grant.terms, transport);
    if redemption.Err? {
      return Err(redemption.error);
    }
    var authHeaders := ResolveAuth(call.auth);
    if authHeaders.Err? {
      return Err(authHeaders.error);
    }
    return Ok((grant, redemption.value, authHeaders.value));
  }

  /** What an outcome means. Admitted: every check passed and the authority said yes to this very grant.
      Rejected: with the local refusal; or, every check passed, as unavailable or denied. */
  ghost predicate Means(rt: Runtime, call: Inbound, reply: Reply, outcome: Outcome) {
    var prepared := Prepare(rt, call);
    match outcome
    case Admitted(grant) => prepared.Ready? && SaysYes(reply, prepared.redemption.grantId) && grant == prepared.grant
    case Rejected(status, detail) =>
      || (prepared.Refusal? && status == prepared.status && detail == prepared.detail)
      || (prepared.Ready? && !SaysYes(reply, prepared.redemption.grantId)
          && (if IsReliable(reply) then status == 403 && detail == "capability_grant_redeem_denied"
              else status == 503 && detail == "capability_grant_redeem_unavailable"))
  }

  /** The authority gave an answer that can be relied on: not lost, busy or broken, and readable. */
  predicate IsReliable(reply: Reply) {
    && reply.Response? && reply.status != 408 && reply.status != 429
    && (400 <= reply.status <= 499 || (200 <= reply.status <= 299 && reply.body.Some?))
  }

  lemma OutcomeMeans(rt: Runtime, call: Inbound, reply: Reply)
    ensures Means(rt, call, reply, OutcomeOf(Prepare(rt, call), reply))
  {
    var prepared := Prepare(rt, call);
    if prepared.Ready? {
      DecisionTable(prepared.redemption, reply);
    }
  }

  lemma TwiceIsRefused(rt: Runtime, call: Inbound)
    requires AnySentTwice(call.request.headers)
    ensures Prepare(rt, call).Refusal? && Prepare(rt, call).status == 401
  {
    var k :| 0 <= k < 7 && SentTwice(call.request.headers, SEVEN_NAMES[k]);
    SecondCopyIsRefused(rt, call, k);
  }

  /** Header checks, local checks, at most one redeem call, and the grant only for an explicit
      yes; a request refused before the call leaves the authority untouched. */
  method RequireCapabilityGrant(rt: Runtime, call: Inbound, authority: Authority, reply: Reply)
    returns (outcome: Outcome)
    modifies authority
    ensures outcome == OutcomeOf(Prepare(rt, call), reply)
    ensures Means(rt, call, reply, outcome)
    ensures AnySentTwice(call.request.headers) ==>
      outcome.Rejected? && outcome.status == 401 && authority.received == old(authority.received)
    ensures authority.received == old(authority.received)
      + if Prepare(rt, call).Ready? then [Prepare(rt, call).redemption] else []
  {
    OutcomeMeans(rt, call, reply);
    if AnySentTwice(call.request.headers) {
      TwiceIsRefused(rt, call);
    }
    var token := SingleHeader(call.request.headers, GRANT_HEADER);
    if token.Err? {
      return Rejected(401, token.error.code);
    }
    var bound := CollectSingleHeaders(call.request.headers, BOUND_HEADER_NAMES);
    if bound.Err? {
      return Rejected(401, bound.error.code);
    }
    var checked := CheckOnce(rt, call, token.value, bound.value);
    if checked.Err? {
      return Rejected(if checked.error.Format? then 400 else 403, checked.error.code);
    }
    var (grant, redemption, _) := checked.value;
    assert Prepare(rt, call) == Ready(grant, redemption, checked.value.2);
    OnlyAcknowledgementAuthorizes(redemption, reply);
    var result := authority.Redeem(redemption, reply);
    var refusal := Conclude(result);
    if refusal.Some? {
      return Rejected(refusal.value.0, refusal.value.1);
    }
    return Admitted(grant);
  }

  // ----- the same request among others -----

  /** The phase in which a request with this outcome ends. */
  function EndOf(prepared: Prepared, reply: Reply): Phase {
    match prepared
    case Refusal(status, detail) => Refused(status, detail)
    case Ready(grant, redemption, _) =>
      match Conclude(HttpRedeem(redemption, reply))
      case Some((status, detail)) => Refused(status, detail)
      case None => Handled(grant, redemption)
  }

  /** The states after arrival and check, and, when the request is let through, after the call,
      the answer and its delivery. */
  function Alone(prepare: Inbound -> Prepared, s: System, id: nat, call: Inbound, m: nat, reply: Reply, changes: bool):
    Option<System>
  {
    ApplyAll(prepare, s, StepsAlone(prepare, s, id, call, m, reply, changes))
  }

  function StepsAlone(
    prepare: Inbound -> Prepared, s: System, id: nat, call: Inbound, m: nat, reply: Reply, changes: bool): seq<Step>
  {
    [Arrive(id, call), Check(id)]
    + if prepare(call).Ready? then [Send(id), Answer(|s.calls|, m, reply, changes), Deliver(m)] else []
  }

  /** Take the steps one by one, if each is enabled. */
  function ApplyAll(prepare: Inbound -> Prepared, s: System, steps: seq<Step>): Option<System>
    decreases |steps|
  {
    if steps == [] then Some(s)
    else if !Enabled(s, steps[0]) then None
    else ApplyAll(prepare, Apply(prepare, s, steps[0]), steps[1..])
  }

  lemma ThreeSteps(prepare: Inbound -> Prepared, s: System, a: Step, b: Step, c: Step)
    ensures ApplyAll(prepare, s, [a, b, c]) ==
      if !Enabled(s, a) then None
      else ApplyAll(prepare, Apply(prepare, s, a), [b, c])
    ensures ApplyAll(prepare, s, [b, c]) ==
      if !Enabled(s, b) then None
      else ApplyAll(prepare, Apply(prepare, s, b), [c])
    ensures ApplyAll(prepare, s, [c]) == if !Enabled(s, c) then None else Some(Apply(prepare, s, c))
  {
    assert [a, b, c][1..] == [b, c] && [b, c][1..] == [c] && [c][1..] == [];
  }

  lemma TwoSteps(prepare: Inbound -> Prepared, s: System, a: Step, b: Step, more: seq<Step>)
    requires Enabled(s, a) && Enabled(Apply(prepare, s, a), b)
    ensures ApplyAll(prepare, s, [a, b] + more)
         == ApplyAll(prepare, Apply(prepare, Apply(prepare, s, a), b), more)
  {
    assert ([a, b] + more)[1..] == [b] + more && ([b] + more)[1..] == more;
  }

  /** A request that is not interleaved ends in the protocol exactly as the sequential method says,
      with the same redeem call sent and nothing else about other requests changed. */
  lemma SequentialRunIsARun(
    prepare: Inbound -> Prepared, s: System, id: nat, call: Inbound, m: nat, reply: Reply, changes: bool)
    requires id !in s.requests && m !in s.wire
    requires prepare(call).Ready? && Acknowledges(reply, prepare(call).redemption.grantId) ==>
      s.successes[prepare(call).redemption.grantId] == 0
    ensures var end := Alone(prepare, s, id, call, m, reply, changes);
      && end.Some?
      && end.value.requests == s.requests[id := Entry(call, EndOf(prepare(call), reply))]
      && end.value.calls == s.calls + (if prepare(call).Ready? then [(id, prepare(call).redemption)] else [])
      && end.value.wire == s.wire
      && end.value.handled == s.handled + if OutcomeOf(prepare(call), reply).Admitted?
           then [(id, prepare(call).redemption.grantId)] else []
  {
    var s1 := Apply(prepare, s, Arrive(id, call));
    var s2 := Apply(prepare, s1, Check(id));
    if prepare(call).Ready? {
      TwoSteps(prepare, s, Arrive(id, call), Check(id), [Send(id), Answer(|s.calls|, m, reply, changes), Deliver(m)]);
      AnsweredAlone(prepare, s2, id, m, reply, changes);
      assert s2.requests[id].call == call;
    } else {
      TwoSteps(prepare, s, Arrive(id, call), Check(id), []);
    }
  }

  lemma AnsweredAlone(prepare: Inbound -> Prepared, s: System, id: nat, m: nat, reply: Reply, changes: bool)
    requires id in s.requests && s.requests[id].phase.Calling? && m !in s.wire
    requires Acknowledges(reply, s.requests[id].phase.redemption.grantId) ==>
      s.successes[s.requests[id].phase.redemption.grantId] == 0
    ensures var phase := s.requests[id].phase;
      var end := ApplyAll(prepare, s, [Send(id), Answer(|s.calls|, m, reply, changes), Deliver(m)]);
      && end.Some?
      && end.value.requests == s.requests[id := s.requests[id].(phase :=
           var refusal := Conclude(HttpRedeem(phase.redemption, reply));
           if refusal.Some? then Refused(refusal.value.0, refusal.value.1) else Handled(phase.grant, phase.redemption))]
      && end.value.calls == s.calls + [(id, phase.redemption)]
      && end.value.wire == s.wire
      && end.value.handled == s.handled + if Conclude(HttpRedeem(phase.redemption, reply)).None?
           then [(id, phase.redemption.grantId)] else []
  {
    var a, b := Send(id), Answer(|s.calls|, m, reply, changes);
    ThreeSteps(prepare, s, a, b, Deliver(m));
    var t := Apply(prepare, s, a);
    ThreeSteps(prepare, t, a, b, Deliver(m));
    assert t.calls[|s.calls|] == (id, s.requests[id].phase.redemption);
    var u := Apply(prepare, t, b);
    ThreeSteps(prepare, u, a, b, Deliver(m));
    assert u.wire - {m} == s.wire;
  }
}
