/** What the redeemer makes of the authority's reply, and what the dependency makes of that. */
module Redeemers {
  import opened Base
  import opened Json
  import opened Claims
  import opened Dependencies

  /** The reply as it arrives: nothing reliable, or a status with a JSON body or an unreadable one. */
  datatype Reply = Lost | Response(status: int, body: Option<Json>)

  /** How the awaited callback ends: the exact `True`, anything else, a denial, or another failure. */
  datatype RedeemResult = Returned(isTrue: bool) | RaisedDenied(code: string) | RaisedOther

  const REDEEMED := Lit("redeemed")
  const EVENT_ID := Lit("event_id")

  /** The body of a success: an explicit yes for this grant with a causal event. */
  predicate IsAcknowledgement(v: Json, grantId: Text) {
    && v.Obj?
    && REDEEMED in v.fields && v.fields[REDEEMED] == Bool(true)
    && GRANT_ID in v.fields && v.fields[GRANT_ID] == Str(grantId)
    && EVENT_ID in v.fields && v.fields[EVENT_ID].Str?
    && IsTrimmed(v.fields[EVENT_ID].t) && 0 < |v.fields[EVENT_ID].t| <= 200
  }

  /** `AsyncHTTPCapabilityGrantRedeemer.__call__` after the POST. */
  function HttpRedeem(redemption: Redemption, reply: Reply): RedeemResult {
    match reply
    case Lost => RaisedOther
    case Response(status, body) =>
      if status == 408 || status == 429 then RaisedOther
      else if 400 <= status < 500 then Returned(false)
      else if !(200 <= status < 300) then RaisedOther
      else if body.None? then RaisedOther
      else Returned(IsAcknowledgement(body.value, redemption.grantId))
  }

  /** The dependency's end: only the exact `True` lets the handler run. */
  function Conclude(result: RedeemResult): Option<(int, string)> {
    match result
    case RaisedDenied(code) => Some((403, code))
    case RaisedOther => Some((503, "capability_grant_redeem_unavailable"))
    case Returned(isTrue) => if isTrue then None else Some((403, "capability_grant_redeem_denied"))
  }

  /** The reply is a success answer for this grant. */
  predicate Acknowledges(reply: Reply, grantId: Text) {
    && reply.Response? && 200 <= reply.status < 300
    && reply.body.Some? && IsAcknowledgement(reply.body.value, grantId)
  }

  /** Fail closed: the request is let through iff the reply is a success answer for its own grant;
      a lost, busy or broken authority is told apart from a refusal. */
  lemma OnlyAcknowledgementAuthorizes(redemption: Redemption, reply: Reply)
    ensures Conclude(HttpRedeem(redemption, reply)).None? <==> Acknowledges(reply, redemption.grantId)
    ensures Conclude(HttpRedeem(redemption, reply)).Some? ==>
      var (status, detail) := Conclude(HttpRedeem(redemption, reply)).value;
      status == 403 <==>
        && reply.Response?
        && reply.status != 408 && reply.status != 429
        && (400 <= reply.status < 500 || (200 <= reply.status < 300 && reply.body.Some?))
  {
  }

  /** A success answer, spelled out: a 2xx reply whose body is an object that says yes to this grant and
      names an event, a trimmed text of at most 200 characters. */
  ghost predicate SaysYes(reply: Reply, grantId: Text) {
    && reply.Response? && 200 <= reply.status <= 299
    && reply.body.Some? && reply.body.value.Obj?
    && var body := reply.body.value.fields;
    && Lit("redeemed") in body && body[Lit("redeemed")] == Bool(true)
    && Lit("grant_id") in body && body[Lit("grant_id")] == Str(grantId)
    && Lit("event_id") in body && body[Lit("event_id")].Str?
    && var event := body[Lit("event_id")].t;
    && 1 <= |event| <= 200 && Strip(event) == event
  }

  lemma AcknowledgementSaysYes(reply: Reply, grantId: Text)
    ensures Acknowledges(reply, grantId) <==> SaysYes(reply, grantId)
  {
    if reply.Response? && reply.body.Some? && reply.body.value.Obj? {
      var body := reply.body.value.fields;
      if EVENT_ID in body && body[EVENT_ID].Str? {
        StripFixesTrimmed(body[EVENT_ID].t);
      }
    }
  }

  /** The whole decision table: the handler may run iff the reply says yes to this very grant. A lost,
      busy or broken authority and an unreadable success answer are unavailable; every other reply is
      a denial. */
  lemma DecisionTable(redemption: Redemption, reply: Reply)
    ensures var answer := Conclude(HttpRedeem(redemption, reply));
      && (answer == None <==> SaysYes(reply, redemption.grantId))
      && (answer == Some((503, "capability_grant_redeem_unavailable")) <==>
            || reply.Lost? || reply.status == 408 || reply.status == 429
            || reply.status < 200 || 300 <= reply.status < 400 || 500 <= reply.status
            || (200 <= reply.status < 300 && reply.body.None?))
      && (answer == Some((403, "capability_grant_redeem_denied")) <==>
            && reply.Response?
            && ((400 <= reply.status < 500 && reply.status != 408 && reply.status != 429)
                || (200 <= reply.status < 300 && reply.body.Some? && !SaysYes(reply, redemption.grantId))))
  {
    AcknowledgementSaysYes(reply, redemption.grantId);
  }

  /** A reply can be a success answer for one grant only. */
  lemma AcknowledgesOneGrant(reply: Reply, g: Text, h: Text)
    requires Acknowledges(reply, g) && Acknowledges(reply, h)
    ensures g == h
  {
  }
}
