/** Many requests at once against one authority: every interleaving of arrivals, checks, redeem
    calls, answers, losses and handler runs. */
module Protocol {
  import opened Base
  import opened Verifiers
  import opened Dependencies
  import opened Redeemers

  /** Where a request stands. Between `Calling` and the end lies the await on the redeemer. */
  datatype Phase =
    | Received
    | Calling(grant: VerifiedGrant, redemption: Redemption)
    | Waiting(grant: VerifiedGrant, redemption: Redemption)
    | Refused(status: int, detail: string)
    | Handled(grant: VerifiedGrant, redemption: Redemption)

  datatype Entry = Entry(call: Inbound, phase: Phase)

  datatype Message = Message(id: nat, redemption: Redemption, reply: Reply)

  datatype System = System(
    requests: map<nat, Entry>,
    calls: seq<(nat, Redemption)>,   // redeem calls in the order they were sent
    ledger: seq<nat>,                // requests on whose behalf the authority changed its state
    wire: map<nat, Message>,         // replies under way
    successes: multiset<Text>,       // success answers given, by grant id
    handled: seq<(nat, Text)>)       // handler runs, with the grant each ran under

  datatype Step =
    | Arrive(id: nat, call: Inbound)
    | Check(id: nat)
    | Send(id: nat)
    | Answer(n: nat, m: nat, reply: Reply, changes: bool)
    | Deliver(m: nat)
    | Expire(id: nat)

  const INITIAL := System(map[], [], [], map[], multiset{}, [])

  /** The environment's rules. The authority may answer any sent call at any time, more than once,
      and with anything, except that it gives a success answer at most once for each grant. */
  predicate Enabled(s: System, step: Step) {
    match step
    case Arrive(id, call) => id !in s.requests
    case Check(id) => id in s.requests && s.requests[id].phase.Received?
    case Send(id) => id in s.requests && s.requests[id].phase.Calling?
    case Answer(n, m, reply, changes) =>
      && n < |s.calls|
      && m !in s.wire
      && (Acknowledges(reply, s.calls[n].1.grantId) ==> s.successes[s.calls[n].1.grantId] == 0)
    case Deliver(m) => m in s.wire
    case Expire(id) => id in s.requests && s.requests[id].phase.Waiting?
  }

  function At(s: System, id: nat, phase: Phase): System
    requires id in s.requests
  {
    s.(requests := s.requests[id := s.requests[id].(phase := phase)])
  }

  function Checked(prepare: Inbound -> Prepared, s: System, id: nat): System
    requires id in s.requests
  {
    match prepare(s.requests[id].call)
    case Ready(grant, redemption, _) => At(s, id, Calling(grant, redemption))
    case Refusal(status, detail) => At(s, id, Refused(status, detail))
  }

  /** A reply reaches its request; one that has stopped waiting no longer listens. */
  function Delivered(s: System, message: Message): System {
    if message.id !in s.requests || !s.requests[message.id].phase.Waiting? then s
    else
      var phase := s.requests[message.id].phase;
      match Conclude(HttpRedeem(phase.redemption, message.reply))
      case Some((status, detail)) => At(s, message.id, Refused(status, detail))
      case None =>
        At(s, message.id, Handled(phase.grant, phase.redemption))
        .(handled := s.handled + [(message.id, phase.redemption.grantId)])
  }

  function Apply(prepare: Inbound -> Prepared, s: System, step: Step): System
    requires Enabled(s, step)
  {
    match step
    case Arrive(id, call) => s.(requests := s.requests[id := Entry(call, Received)])
    case Check(id) => Checked(prepare, s, id)
    case Send(id) =>
      var phase := s.requests[id].phase;
      At(s, id, Waiting(phase.grant, phase.redemption)).(calls := s.calls + [(id, phase.redemption)])
    case Answer(n, m, reply, changes) =>
      var (id, redemption) := s.calls[n];
      s.(wire := s.wire[m := Message(id, redemption, reply)],
         ledger := if changes then s.ledger + [id] else s.ledger,
         successes := if Acknowledges(reply, redemption.grantId)
                      then s.successes + multiset{redemption.grantId} else s.successes)
    case Deliver(m) => Delivered(s.(wire := s.wire - {m}), s.wire[m])
    case Expire(id) => At(s, id, Refused(503, "capability_grant_redeem_unavailable"))
  }

  /** A run: its states and the steps between them, each possible when it was taken. */
  ghost predicate IsRun(prepare: Inbound -> Prepared, states: seq<System>, steps: seq<Step>) {
    && |states| == |steps| + 1
    && states[0] == INITIAL
    && forall i | 0 <= i < |steps| ::
         Enabled(states[i], steps[i]) && states[i + 1] == Apply(prepare, states[i], steps[i])
  }

  // ----- what every step keeps -----

  /** The request has passed its checks with exactly this grant and redemption. */
  predicate Cleared(prepare: Inbound -> Prepared, s: System, id: nat, redemption: Redemption) {
    && id in s.requests
    && prepare(s.requests[id].call).Ready?
    && prepare(s.requests[id].call).redemption == redemption
  }

  predicate HasCalled(phase: Phase) {
    phase.Waiting? || phase.Refused? || phase.Handled?
  }

  /** Sent calls belong to cleared requests that are past the call, each request at most once. */
  ghost predicate CallsKept(prepare: Inbound -> Prepared, s: System) {
    && (forall n | 0 <= n < |s.calls| ::
          Cleared(prepare, s, s.calls[n].0, s.calls[n].1) && HasCalled(s.requests[s.calls[n].0].phase))
    && (forall i, j | 0 <= i < j < |s.calls| :: s.calls[i].0 != s.calls[j].0)
  }

  ghost predicate Sent(s: System, id: nat, redemption: Redemption) {
    (id, redemption) in s.calls
  }

  /** A request that calls, waits or is handled was cleared with what it carries; once past the
      call it has sent it. */
  ghost predicate EntriesKept(prepare: Inbound -> Prepared, s: System) {
    forall id | id in s.requests ::
      var phase := s.requests[id].phase;
      && (phase.Calling? || phase.Waiting? || phase.Handled? ==>
            Cleared(prepare, s, id, phase.redemption) && prepare(s.requests[id].call).grant == phase.grant)
      && (phase.Waiting? || phase.Handled? ==> Sent(s, id, phase.redemption))
  }

  ghost predicate HasSent(calls: seq<(nat, Redemption)>, id: nat) {
    exists n :: 0 <= n < |calls| && calls[n].0 == id
  }

  /** Replies under way answer sent calls, and the ledger only names requests that sent one. */
  ghost predicate WireKept(s: System) {
    && (forall m | m in s.wire :: Sent(s, s.wire[m].id, s.wire[m].redemption))
    && (forall k | 0 <= k < |s.ledger| :: HasSent(s.calls, s.ledger[k]))
  }

  ghost predicate IsSuccess(message: Message) {
    Acknowledges(message.reply, message.redemption.grantId)
  }

  /** Each success answer is in one place only: under way, spent on one handler run, or gone. */
  ghost predicate SuccessesKept(s: System) {
    && (forall g :: s.successes[g] <= 1)
    && (forall m | m in s.wire && IsSuccess(s.wire[m]) :: s.successes[s.wire[m].redemption.grantId] == 1)
    && (forall k | 0 <= k < |s.handled| :: s.successes[s.handled[k].1] == 1)
    && (forall m, n | m in s.wire && n in s.wire && m != n && IsSuccess(s.wire[m]) && IsSuccess(s.wire[n]) ::
          s.wire[m].redemption.grantId != s.wire[n].redemption.grantId)
    && (forall m, k | m in s.wire && IsSuccess(s.wire[m]) && 0 <= k < |s.handled| ::
          s.handled[k].1 != s.wire[m].redemption.grantId)
    && (forall i, j | 0 <= i < j < |s.handled| :: s.handled[i].1 != s.handled[j].1)
  }

  /** The log of handler runs and the handled requests are the same thing. */
  ghost predicate HandledKept(s: System) {
    && (forall k | 0 <= k < |s.handled| ::
          var id := s.handled[k].0;
          id in s.requests && s.requests[id].phase.Handled? && s.requests[id].phase.redemption.grantId == s.handled[k].1)
    && (forall id | id in s.requests && s.requests[id].phase.Handled? ::
          (id, s.requests[id].phase.redemption.grantId) in s.handled)
  }

  ghost predicate Invariant(prepare: Inbound -> Prepared, s: System) {
    CallsKept(prepare, s) && EntriesKept(prepare, s) && WireKept(s) && SuccessesKept(s) && HandledKept(s)
  }

  // Changing one phase, adding one call or one reply: what each part of the invariant needs.

  lemma MoveKeepsCalls(prepare: Inbound -> Prepared, s: System, id: nat, phase: Phase)
    requires CallsKept(prepare, s) && id in s.requests
    requires HasCalled(s.requests[id].phase) ==> HasCalled(phase)
    ensures CallsKept(prepare, At(s, id, phase))
  {
  }

  lemma MoveKeepsEntries(prepare: Inbound -> Prepared, s: System, id: nat, phase: Phase)
    requires EntriesKept(prepare, s) && id in s.requests
    requires phase.Calling? || phase.Waiting? || phase.Handled? ==>
      Cleared(prepare, s, id, phase.redemption) && prepare(s.requests[id].call).grant == phase.grant
    requires phase.Waiting? || phase.Handled? ==> Sent(s, id, phase.redemption)
    ensures EntriesKept(prepare, At(s, id, phase))
  {
    var t := At(s, id, phase);
    forall x | x in t.requests ensures
      var p := t.requests[x].phase;
      && (p.Calling? || p.Waiting? || p.Handled? ==>
            Cleared(prepare, t, x, p.redemption) && prepare(t.requests[x].call).grant == p.grant)
      && (p.Waiting? || p.Handled? ==> Sent(t, x, p.redemption))
    {
      assert x in s.requests && t.requests[x].call == s.requests[x].call;
      if x != id {
        assert t.requests[x] == s.requests[x];
      }
    }
  }

  lemma ArriveKeeps(prepare: Inbound -> Prepared, s: System, id: nat, call: Inbound)
    requires Invariant(prepare, s) && Enabled(s, Arrive(id, call))
    ensures Invariant(prepare, Apply(prepare, s, Arrive(id, call)))
  {
    var t := Apply(prepare, s, Arrive(id, call));
    assert forall x | x in s.requests :: t.requests[x] == s.requests[x];
  }

  lemma CheckKeeps(prepare: Inbound -> Prepared, s: System, id: nat)
    requires Invariant(prepare, s) && Enabled(s, Check(id))
    ensures Invariant(prepare, Apply(prepare, s, Check(id)))
  {
    var p := prepare(s.requests[id].call);
    var phase := if p.Ready? then Calling(p.grant, p.redemption) else Refused(p.status, p.detail);
    MoveKeepsCalls(prepare, s, id, phase);
    MoveKeepsEntries(prepare, s, id, phase);
  }

  /** One more call in the list leaves the other parts as they were. */
  lemma CallKeeps(prepare: Inbound -> Prepared, s: System, call: (nat, Redemption))
    requires EntriesKept(prepare, s) && WireKept(s)
    ensures EntriesKept(prepare, s.(calls := s.calls + [call])) && WireKept(s.(calls := s.calls + [call]))
  {
    var t := s.(calls := s.calls + [call]);
    assert forall c | c in s.calls :: c in t.calls;
    forall id | HasSent(s.calls, id) ensures HasSent(t.calls, id) {
      var n :| 0 <= n < |s.calls| && s.calls[n].0 == id;
      assert t.calls[n].0 == id;
    }
  }

  lemma SendKeepsCalls(prepare: Inbound -> Prepared, s: System, id: nat)
    requires CallsKept(prepare, s) && EntriesKept(prepare, s) && Enabled(s, Send(id))
    ensures CallsKept(prepare, Apply(prepare, s, Send(id)))
  {
    assert forall n | 0 <= n < |s.calls| :: s.calls[n].0 != id;
  }

  lemma SendKeeps(prepare: Inbound -> Prepared, s: System, id: nat)
    requires Invariant(prepare, s) && Enabled(s, Send(id))
    ensures Invariant(prepare, Apply(prepare, s, Send(id)))
  {
    var phase := s.requests[id].phase;
    var call := (id, phase.redemption);
    var u := s.(calls := s.calls + [call]);
    SendKeepsCalls(prepare, s, id);
    CallKeeps(prepare, s, call);
    assert u.calls[|s.calls|] == call;
    MoveKeepsEntries(prepare, u, id, Waiting(phase.grant, phase.redemption));
    assert Apply(prepare, s, Send(id)) == At(u, id, Waiting(phase.grant, phase.redemption));
  }

  lemma AnswerKeepsSuccesses(s: System, m: nat, message: Message)
    requires SuccessesKept(s) && m !in s.wire
    requires IsSuccess(message) ==> s.successes[message.redemption.grantId] == 0
    ensures SuccessesKept(s.(wire := s.wire[m := message],
      successes := if IsSuccess(message) then s.successes + multiset{message.redemption.grantId} else s.successes))
  {
  }

  lemma AnswerKeepsWire(s: System, n: nat, m: nat, reply: Reply, changes: bool)
    requires WireKept(s) && n < |s.calls| && m !in s.wire
    ensures WireKept(s.(wire := s.wire[m := Message(s.calls[n].0, s.calls[n].1, reply)],
      ledger := if changes then s.ledger + [s.calls[n].0] else s.ledger))
  {
    assert s.calls[n] in s.calls;
    assert HasSent(s.calls, s.calls[n].0);
  }

  lemma AnswerKeeps(prepare: Inbound -> Prepared, s: System, n: nat, m: nat, reply: Reply, changes: bool)
    requires Invariant(prepare, s) && Enabled(s, Answer(n, m, reply, changes))
    ensures Invariant(prepare, Apply(prepare, s, Answer(n, m, reply, changes)))
  {
    var t := Apply(prepare, s, Answer(n, m, reply, changes));
    AnswerKeepsSuccesses(s, m, Message(s.calls[n].0, s.calls[n].1, reply));
    AnswerKeepsWire(s, n, m, reply, changes);
    assert t.requests == s.requests && t.calls == s.calls && t.handled == s.handled;
  }

  lemma ExpireKeeps(prepare: Inbound -> Prepared, s: System, id: nat)
    requires Invariant(prepare, s) && Enabled(s, Expire(id))
    ensures Invariant(prepare, Apply(prepare, s, Expire(id)))
  {
    MoveKeepsCalls(prepare, s, id, Refused(503, "capability_grant_redeem_unavailable"));
    MoveKeepsEntries(prepare, s, id, Refused(503, "capability_grant_redeem_unavailable"));
  }

  /** A waiting request sent one call only, so a reply to it answers that call. */
  lemma ReplyMatches(prepare: Inbound -> Prepared, s: System, m: nat)
    requires Invariant(prepare, s) && m in s.wire
    requires s.wire[m].id in s.requests && s.requests[s.wire[m].id].phase.Waiting?
    ensures s.requests[s.wire[m].id].phase.redemption == s.wire[m].redemption
  {
    assert Sent(s, s.wire[m].id, s.wire[m].redemption);
  }

  /** A success answer taken off the wire may be spent on one handler run. */
  lemma SpendSuccess(s: System, m: nat)
    requires SuccessesKept(s) && m in s.wire
    ensures SuccessesKept(s.(wire := s.wire - {m}))
    ensures IsSuccess(s.wire[m]) ==>
      SuccessesKept(s.(wire := s.wire - {m}, handled := s.handled + [(s.wire[m].id, s.wire[m].redemption.grantId)]))
  {
  }

  lemma RunKeepsLog(s: System, id: nat, grant: VerifiedGrant, redemption: Redemption)
    requires HandledKept(s) && id in s.requests && !s.requests[id].phase.Handled?
    ensures HandledKept(At(s, id, Handled(grant, redemption)).(handled := s.handled + [(id, redemption.grantId)]))
  {
    var handled := s.handled + [(id, redemption.grantId)];
    assert handled[|s.handled|] == (id, redemption.grantId);
    assert forall h | h in s.handled :: h in handled;
  }

  lemma DeliverKeeps(prepare: Inbound -> Prepared, s: System, m: nat)
    requires Invariant(prepare, s) && Enabled(s, Deliver(m))
    ensures Invariant(prepare, Apply(prepare, s, Deliver(m)))
  {
    TakeOff(prepare, s, m);
    var message := s.wire[m];
    if message.id in s.requests && s.requests[message.id].phase.Waiting? {
      ReplyMatches(prepare, s, m);
      DeliverToWaiting(prepare, s, m);
    }
  }

  lemma TakeOff(prepare: Inbound -> Prepared, s: System, m: nat)
    requires Invariant(prepare, s) && m in s.wire
    ensures Invariant(prepare, s.(wire := s.wire - {m}))
  {
    SpendSuccess(s, m);
  }

  lemma DeliverToWaiting(prepare: Inbound -> Prepared, s: System, m: nat)
    requires Invariant(prepare, s) && m in s.wire && Invariant(prepare, s.(wire := s.wire - {m}))
    requires s.wire[m].id in s.requests && s.requests[s.wire[m].id].phase.Waiting?
    requires s.requests[s.wire[m].id].phase.redemption == s.wire[m].redemption
    ensures Invariant(prepare, Delivered(s.(wire := s.wire - {m}), s.wire[m]))
  {
    var message := s.wire[m];
    var u := s.(wire := s.wire - {m});
    OnlyAcknowledgementAuthorizes(message.redemption, message.reply);
    var after := Conclude(HttpRedeem(message.redemption, message.reply));
    if after.Some? {
      DeliverRefusal(prepare, u, message.id, after.value.0, after.value.1);
    } else {
      SpendSuccess(s, m);
      DeliverYes(prepare, u, message.id);
    }
  }

  lemma DeliverYes(prepare: Inbound -> Prepared, u: System, id: nat)
    requires Invariant(prepare, u) && id in u.requests && u.requests[id].phase.Waiting?
    requires SuccessesKept(u.(handled := u.handled + [(id, u.requests[id].phase.redemption.grantId)]))
    ensures var phase := u.requests[id].phase;
      Invariant(prepare, At(u, id, Handled(phase.grant, phase.redemption))
                         .(handled := u.handled + [(id, phase.redemption.grantId)]))
  {
    var phase := u.requests[id].phase;
    var t := At(u, id, Handled(phase.grant, phase.redemption));
    MoveKeepsCalls(prepare, u, id, Handled(phase.grant, phase.redemption));
    MoveKeepsEntries(prepare, u, id, Handled(phase.grant, phase.redemption));
    RunKeepsLog(u, id, phase.grant, phase.redemption);
    LogIsApart(prepare, t, u.handled + [(id, phase.redemption.grantId)]);
  }

  lemma LogIsApart(prepare: Inbound -> Prepared, s: System, handled: seq<(nat, Text)>)
    ensures CallsKept(prepare, s) ==> CallsKept(prepare, s.(handled := handled))
    ensures EntriesKept(prepare, s) ==> EntriesKept(prepare, s.(handled := handled))
    ensures WireKept(s) ==> WireKept(s.(handled := handled))
  {
  }

  lemma DeliverRefusal(prepare: Inbound -> Prepared, u: System, id: nat, status: int, detail: string)
    requires Invariant(prepare, u) && id in u.requests && u.requests[id].phase.Waiting?
    ensures Invariant(prepare, At(u, id, Refused(status, detail)))
  {
    MoveKeepsCalls(prepare, u, id, Refused(status, detail));
    MoveKeepsEntries(prepare, u, id, Refused(status, detail));
  }

  lemma StepKeeps(prepare: Inbound -> Prepared, s: System, step: Step)
    requires Invariant(prepare, s) && Enabled(s, step)
    ensures Invariant(prepare, Apply(prepare, s, step))
  {
    match step
    case Arrive(id, call) => ArriveKeeps(prepare, s, id, call);
    case Check(id) => CheckKeeps(prepare, s, id);
    case Send(id) => SendKeeps(prepare, s, id);
    case Answer(n, m, reply, changes) => AnswerKeeps(prepare, s, n, m, reply, changes);
    case Deliver(m) => DeliverKeeps(prepare, s, m);
    case Expire(id) => ExpireKeeps(prepare, s, id);
  }

  /** The invariant holds in every state of every run. */
  lemma {:induction false} EveryRunKeeps(prepare: Inbound -> Prepared, states: seq<System>, steps: seq<Step>, i: nat)
    requires IsRun(prepare, states, steps) && i < |states|
    ensures Invariant(prepare, states[i])
  {
    if i > 0 {
      EveryRunKeeps(prepare, states, steps, i - 1);
      StepKeeps(prepare, states[i - 1], steps[i - 1]);
    }
  }

  // ----- safety over all runs -----

  /** How often the handler ran under a grant. */
  function Runs(handled: seq<(nat, Text)>, g: Text): nat {
    if handled == [] then 0
    else Runs(handled[..|handled| - 1], g) + if handled[|handled| - 1].1 == g then 1 else 0
  }

  lemma {:induction false} RunsAbsent(handled: seq<(nat, Text)>, g: Text)
    ensures Runs(handled, g) > 0 <==> exists k :: 0 <= k < |handled| && handled[k].1 == g
  {
    if handled != [] {
      var front := handled[..|handled| - 1];
      RunsAbsent(front, g);
      if k :| 0 <= k < |handled| && handled[k].1 == g {
        if k < |front| {
          assert front[k].1 == g;
        }
      }
      if k :| 0 <= k < |front| && front[k].1 == g {
        assert handled[k].1 == g;
      }
    }
  }

  lemma {:induction false} RunsDistinct(handled: seq<(nat, Text)>, g: Text)
    requires forall i, j | 0 <= i < j < |handled| :: handled[i].1 != handled[j].1
    ensures Runs(handled, g) <= 1
  {
    if handled != [] {
      var front := handled[..|handled| - 1];
      RunsDistinct(front, g);
      RunsAbsent(front, g);
    }
  }

  /** At most once: in every state of every run, whatever is lost or fails, the handler has run
      under a grant no more often than the authority said yes to it, and never twice. */
  lemma AtMostOnce(prepare: Inbound -> Prepared, states: seq<System>, steps: seq<Step>, i: nat, g: Text)
    requires IsRun(prepare, states, steps) && i < |states|
    ensures Runs(states[i].handled, g) <= states[i].successes[g] <= 1
    ensures forall x, y |
      && x in states[i].requests && states[i].requests[x].phase.Handled?
      && y in states[i].requests && states[i].requests[y].phase.Handled?
      && states[i].requests[x].phase.redemption.grantId == states[i].requests[y].phase.redemption.grantId
      :: x == y
  {
    EveryRunKeeps(prepare, states, steps, i);
    RunsDistinct(states[i].handled, g);
    RunsAbsent(states[i].handled, g);
  }

  /** One call a request: no request ever sends two redeem calls. */
  lemma OneCallPerRequest(prepare: Inbound -> Prepared, states: seq<System>, steps: seq<Step>, i: nat)
    requires IsRun(prepare, states, steps) && i < |states|
    ensures forall m, n | 0 <= m < n < |states[i].calls| :: states[i].calls[m].0 != states[i].calls[n].0
    ensures forall n | 0 <= n < |states[i].calls| ::
      Cleared(prepare, states[i], states[i].calls[n].0, states[i].calls[n].1)
  {
    EveryRunKeeps(prepare, states, steps, i);
  }

  /** No use is consumed by a local rejection: whenever the authority changed its state on behalf
      of a request, that request had passed every check. */
  lemma NoUseByLocalRejection(
    prepare: Inbound -> Prepared, states: seq<System>, steps: seq<Step>, i: nat, k: nat)
    requires IsRun(prepare, states, steps) && i < |states| && k < |states[i].ledger|
    ensures var id := states[i].ledger[k];
      && id in states[i].requests
      && prepare(states[i].requests[id].call).Ready?
      && HasCalled(states[i].requests[id].phase)
  {
    EveryRunKeeps(prepare, states, steps, i);
    var s := states[i];
    assert HasSent(s.calls, s.ledger[k]);
    var n :| 0 <= n < |s.calls| && s.calls[n].0 == s.ledger[k];
  }

  /** A handler ran only for a request that passed every check and whose grant got a yes. */
  lemma HandledWasCleared(prepare: Inbound -> Prepared, states: seq<System>, steps: seq<Step>, i: nat, id: nat)
    requires IsRun(prepare, states, steps) && i < |states|
    requires id in states[i].requests && states[i].requests[id].phase.Handled?
    ensures var entry := states[i].requests[id];
      && prepare(entry.call).Ready?
      && prepare(entry.call).grant == entry.phase.grant
      && prepare(entry.call).redemption == entry.phase.redemption
      && states[i].successes[entry.phase.redemption.grantId] == 1
  {
    EveryRunKeeps(prepare, states, steps, i);
    var s := states[i];
    assert (id, s.requests[id].phase.redemption.grantId) in s.handled;
  }

  /** A refusal and a handler run are final: no later step moves the request again. */
  lemma EndIsFinal(prepare: Inbound -> Prepared, s: System, step: Step, id: nat)
    requires id in s.requests && (s.requests[id].phase.Refused? || s.requests[id].phase.Handled?)
    requires Enabled(s, step)
    ensures id in Apply(prepare, s, step).requests && Apply(prepare, s, step).requests[id] == s.requests[id]
  {
  }

  /** Nothing blocks an honest success: delivering the authority's yes to a waiting request runs
      the handler under its grant. */
  lemma YesRunsTheHandler(prepare: Inbound -> Prepared, states: seq<System>, steps: seq<Step>, i: nat, m: nat)
    requires IsRun(prepare, states, steps) && i < |states|
    requires m in states[i].wire && IsSuccess(states[i].wire[m])
    requires states[i].wire[m].id in states[i].requests
    requires states[i].requests[states[i].wire[m].id].phase.Waiting?
    ensures var id := states[i].wire[m].id;
      Apply(prepare, states[i], Deliver(m)).requests[id].phase
      == Handled(states[i].requests[id].phase.grant, states[i].requests[id].phase.redemption)
  {
    EveryRunKeeps(prepare, states, steps, i);
    ReplyMatches(prepare, states[i], m);
    OnlyAcknowledgementAuthorizes(states[i].wire[m].redemption, states[i].wire[m].reply);
  }
}
