/** Leases and activities: a deadline that heartbeats push forward. */
module Leases {
  import opened Base

  const DEFAULT_HEARTBEAT_INTERVAL_SECONDS: int := 10
  const DEFAULT_LEASE_TTL_SECONDS: int := 60

  /** `a or b` on optional integers: zero counts as missing. */
  function OrElse(a: Option<int>, b: int): int {
    if a.Some? && a.value != 0 then a.value else b
  }

  function Min(a: int, b: int): int { if a <= b then a else b }
  function Max(a: int, b: int): int { if a >= b then a else b }

  /** `ttl // 3` rounds down, also below zero. */
  function ThirdOf(ttl: int): int {
    ttl / 3
  }

  /** The part of a decision that a lease uses. */
  datatype Decision = Decision(leaseId: Option<Text>, ttlSeconds: Option<int>, heartbeatIntervalSeconds: Option<int>)

  function ResolvedTtl(requested: Option<int>, decision: Decision): int {
    OrElse(decision.ttlSeconds, OrElse(requested, DEFAULT_LEASE_TTL_SECONDS))
  }

  function ResolvedInterval(decision: Decision, ttl: int): int {
    OrElse(decision.heartbeatIntervalSeconds, Min(DEFAULT_HEARTBEAT_INTERVAL_SECONDS, Max(1, ThirdOf(ttl))))
  }

  /** Present and not zero. */
  predicate IsGiven(n: Option<int>) {
    n.Some? && n.value != 0
  }

  /** The decision's own interval, or a third of the time to live, at least 1 and at most 10. */
  lemma IntervalSpelledOut(decision: Decision, ttl: int)
    ensures IsGiven(decision.heartbeatIntervalSeconds) ==>
      ResolvedInterval(decision, ttl) == decision.heartbeatIntervalSeconds.value
    ensures !IsGiven(decision.heartbeatIntervalSeconds) ==>
      && (ttl < 6 ==> ResolvedInterval(decision, ttl) == 1)
      && (ttl >= 30 ==> ResolvedInterval(decision, ttl) == 10)
      && (3 <= ttl < 30 ==> 3 * ResolvedInterval(decision, ttl) <= ttl < 3 * ResolvedInterval(decision, ttl) + 3)
  {
  }

  class LeaseRecord {
    var leaseId: Text
    var decision: Decision
    var createdAt: real
    var updatedAt: real
    var expiresAt: real
    var releasedAt: Option<real>

    /** The decision carries its time to live, and the deadline is that far from the last beat. */
    ghost predicate Valid()
      reads this
    {
      && decision.ttlSeconds.Some? && decision.ttlSeconds.value != 0
      && decision.heartbeatIntervalSeconds.Some?
      && expiresAt == updatedAt + decision.ttlSeconds.value as real
    }

    /** `from_request`: `now` is the clock, `fresh_` the identifier made up when none is given. */
    constructor (requested: Option<int>, given: Decision, now: real, fresh_: Text)
      ensures Valid()
      ensures leaseId == if given.leaseId.Some? && given.leaseId.value != [] then given.leaseId.value else fresh_
      ensures decision == Decision(Some(leaseId), Some(ResolvedTtl(requested, given)),
                                   Some(ResolvedInterval(given, ResolvedTtl(requested, given))))
      ensures createdAt == updatedAt == now
      ensures expiresAt == now + ResolvedTtl(requested, given) as real
      ensures IsGiven(given.ttlSeconds) ==> expiresAt == now + given.ttlSeconds.value as real
      ensures !IsGiven(given.ttlSeconds) && IsGiven(requested) ==> expiresAt == now + requested.value as real
      ensures !IsGiven(given.ttlSeconds) && !IsGiven(requested) ==> expiresAt == now + 60.0
      ensures releasedAt == None
    {
      var id := if given.leaseId.Some? && given.leaseId.value != [] then given.leaseId.value else fresh_;
      var ttl := ResolvedTtl(requested, given);
      leaseId := id;
      decision := Decision(Some(id), Some(ttl), Some(ResolvedInterval(given, ttl)));
      createdAt := now;
      updatedAt := now;
      expiresAt := now + ttl as real;
      releasedAt := None;
    }

    /** `heartbeat`: the deadline moves, nothing else does. */
    method Heartbeat(now: real)
      requires Valid()
      modifies this`updatedAt, this`expiresAt
      ensures Valid()
      ensures updatedAt == now
      ensures expiresAt == now + decision.ttlSeconds.value as real
    {
      var ttl := OrElse(decision.ttlSeconds, DEFAULT_LEASE_TTL_SECONDS);
      updatedAt := now;
      expiresAt := now + ttl as real;
    }

    /** A run of heartbeats: each looks whether the lease is still alive, then pushes the deadline. */
    method Run(beats: seq<real>) returns (alive: bool)
      requires Valid()
      modifies this`updatedAt, this`expiresAt
      ensures Valid()
      ensures updatedAt == LastBeat(old(updatedAt), beats)
      ensures expiresAt == LastBeat(old(updatedAt), beats) + decision.ttlSeconds.value as real
      ensures alive <==> NeverExpires(old(updatedAt), beats, decision.ttlSeconds.value)
    {
      alive := true;
      for i := 0 to |beats|
        invariant Valid()
        invariant updatedAt == LastBeat(old(updatedAt), beats[..i])
        invariant alive <==> forall j: nat | j < i :: AliveAt(old(updatedAt), beats, j, decision.ttlSeconds.value)
      {
        assert beats[..i + 1][..i] == beats[..i];
        assert beats[i] < expiresAt <==> AliveAt(old(updatedAt), beats, i, decision.ttlSeconds.value);
        alive := alive && beats[i] < expiresAt;
        Heartbeat(beats[i]);
      }
      assert beats[..|beats|] == beats;
    }
  }

  /** The simpler twin: its time to live stays in the request and is used as it is. */
  class ActivityRecord {
    const ttlSeconds: int
    var createdAt: real
    var updatedAt: real
    var expiresAt: real
    var releasedAt: Option<real>

    ghost predicate Valid()
      reads this
    {
      expiresAt == updatedAt + ttlSeconds as real
    }

    constructor (ttlSeconds: int, now: real)
      ensures Valid()
      ensures this.ttlSeconds == ttlSeconds && createdAt == updatedAt == now && releasedAt == None
    {
      this.ttlSeconds := ttlSeconds;
      createdAt := now;
      updatedAt := now;
      expiresAt := now + ttlSeconds as real;
      releasedAt := None;
    }

    method Heartbeat(now: real)
      requires Valid()
      modifies this`updatedAt, this`expiresAt
      ensures Valid() && updatedAt == now
    {
      updatedAt := now;
      expiresAt := now + ttlSeconds as real;
    }
  }

  function LastBeat(start: real, beats: seq<real>): real {
    if beats == [] then start else beats[|beats| - 1]
  }

  /** Beats on a clock that never runs backwards, each less than `gap` after the one before. */
  predicate OnTime(start: real, beats: seq<real>, gap: real) {
    forall i | 0 <= i < |beats| ::
      LastBeat(start, beats[..i]) <= beats[i] < LastBeat(start, beats[..i]) + gap
  }

  /** The deadline in force when the given beat arrives has not been reached. */
  predicate AliveAt(start: real, beats: seq<real>, i: nat, ttl: int)
    requires i < |beats|
  {
    beats[i] < LastBeat(start, beats[..i]) + ttl as real
  }

  /** No beat of the run comes after the deadline set by the beat before it. */
  predicate NeverExpires(start: real, beats: seq<real>, ttl: int) {
    forall i: nat | i < |beats| :: AliveAt(start, beats, i, ttl)
  }

  /** The default interval leaves room for three of itself iff the time to live is at least 3. */
  lemma ThreeIntervalsFit(decision: Decision, ttl: int)
    requires OrElse(decision.heartbeatIntervalSeconds, 0) == 0
    ensures 3 * ResolvedInterval(decision, ttl) <= ttl <==> ttl >= 3
  {
  }

  /** A lease survives two missed beats: with no interval supplied, every run whose gaps stay under
      three intervals keeps it alive, exactly when the resolved time to live is at least 3. */
  lemma SurvivesTwoMissedBeats(requested: Option<int>, decision: Decision)
    requires OrElse(decision.heartbeatIntervalSeconds, 0) == 0
    ensures var ttl := ResolvedTtl(requested, decision);
      var gap := 3.0 * ResolvedInterval(decision, ttl) as real;
      (forall start: real, beats: seq<real> ::
         OnTime(start, beats, gap) ==> NeverExpires(start, beats, ttl))
      <==> ttl >= 3
  {
    var ttl := ResolvedTtl(requested, decision);
    var interval := ResolvedInterval(decision, ttl);
    var gap := 3.0 * interval as real;
    ThreeIntervalsFit(decision, ttl);
    assert gap == (3 * interval) as real;
    if ttl >= 3 {
      forall start: real, beats: seq<real> | OnTime(start, beats, gap) ensures NeverExpires(start, beats, ttl) {
        assert gap <= ttl as real;
      }
    } else {
      LateBeat(ttl, gap);
    }
  }

  /** The run that breaks a shorter lease: one beat at the deadline itself, or at once. */
  lemma LateBeat(ttl: int, gap: real)
    requires ttl as real < gap && 0.0 < gap
    ensures exists start: real, beats: seq<real> :: OnTime(start, beats, gap) && !NeverExpires(start, beats, ttl)
  {
    var at := if ttl >= 0 then ttl as real else 0.0;
    var beats := [at];
    assert beats[..0] == [];
    assert OnTime(0.0, beats, gap);
    assert !AliveAt(0.0, beats, 0, ttl);
  }
}
