/**
  The routing stages of the proxy as they run: each one updates the route plan
  and the outcome in place. Every stage is proved equal to its specification,
  so `RoutingProofs` speaks about this class.
 */
module ProxyRouting {
  import opened Common
  import opened Policy
  import opened RoutingSpec
  import CreditRouting

  /**
    Whatever the credit service gives out for a pool is one of the pool's untried
    keys, so some oracle of the routing theorems describes it.
   */
  lemma CreditServiceIsAnOracle(o: Oracle, m: CreditRouting.Memory, keys: seq<string>, attempted: set<KeyId>, now: int,
                                c: CreditRouting.Candidate)
    requires c in CreditRouting.Candidates(m, o.keyId, keys, attempted, now)
    ensures c.keyId == o.keyId(c.key) && c.keyId !in attempted
    ensures exists index: nat ::
              index < |Candidates(o, keys, attempted)| && Candidates(o, keys, attempted)[index] == c.key
  {
    CreditRouting.CandidatesAreUsable(m, o.keyId, keys, attempted, now);
    CandidatesAreNew(o, keys, attempted);
    assert c.key in Candidates(o, keys, attempted);
  }

  class ProxyService {
    const o: Oracle
    const q: Request
    const initialBackend: Backend

    // The route plan.
    var cloudApiKeys: seq<string>
    var fallbackApiKeys: seq<string>
    var selfHostedAttempted: bool
    var upstreamAttempted: bool
    var attemptedCloudKeyIds: set<KeyId>
    // The outcome so far, and what has been sent outside.
    var outcome: Outcome
    var trace: seq<Event>

    ghost function State(): Plan
      reads this
    {
      Plan(cloudApiKeys, fallbackApiKeys, selfHostedAttempted, upstreamAttempted, attemptedCloudKeyIds, trace)
    }

    constructor (o: Oracle, q: Request, planned: Planned)
      requires planned.Planned?
      ensures this.o == o && this.q == q && initialBackend == planned.initial
      ensures State() == StartPlan(planned)
    {
      this.o, this.q, initialBackend := o, q, planned.initial;
      cloudApiKeys, fallbackApiKeys := planned.cloudKeys, planned.fallbackKeys;
      selfHostedAttempted, upstreamAttempted, attemptedCloudKeyIds := false, false, {};
      outcome := Outcome(planned.initial, NetworkError, false);
      trace := [];
    }

    /** What the credit service gives out: one of the pool's keys that was not tried yet, or nothing. */
    method Reserve() returns (key: Option<string>)
      modifies `trace
      ensures var index := o.choose(old(trace), Candidates(o, cloudApiKeys, attemptedCloudKeyIds));
              var candidates := Candidates(o, cloudApiKeys, attemptedCloudKeyIds);
              key == if index.None? || index.value >= |candidates| then None else Some(candidates[index.value])
      ensures trace == if key.None? then old(trace) + [NoReservation(cloudApiKeys)] else old(trace)
    {
      var candidates := Candidates(o, cloudApiKeys, attemptedCloudKeyIds);
      var index := o.choose(trace, candidates);
      if index.None? || index.value >= |candidates| {
        trace := trace + [NoReservation(cloudApiKeys)];
        return None;
      }
      return Some(candidates[index.value]);
    }

    method ProxyCloud() returns (answer: Option<Answer>)
      modifies `trace, `attemptedCloudKeyIds, `upstreamAttempted
      ensures (State(), answer) == RoutingSpec.ProxyCloud(o, old(State()))
      ensures answer.Some? ==>
                Ids(o, cloudApiKeys) - attemptedCloudKeyIds < Ids(o, cloudApiKeys) - old(attemptedCloudKeyIds)
    {
      ProxyCloudUsesNewKey(o, State());
      var key := Reserve();
      if key.None? {
        return None;
      }
      attemptedCloudKeyIds := attemptedCloudKeyIds + {o.keyId(key.value)};
      upstreamAttempted := true;
      var reply := o.cloud(trace);
      trace := trace + [CloudCall(key.value, o.keyId(key.value), reply)];
      return Some(reply);
    }

    method ProxySelfHosted() returns (answer: Answer)
      modifies `trace, `selfHostedAttempted, `upstreamAttempted
      ensures (State(), answer) == RoutingSpec.ProxySelfHosted(o, old(State()))
    {
      selfHostedAttempted := true;
      var (reply, reached) := o.selfHosted(trace);
      if reached {
        upstreamAttempted := true;
      }
      trace := trace + [SelfHostedCall(reply, reached)];
      return reply;
    }

    method TakeFallbackKeys() returns (taken: bool)
      modifies `trace, `cloudApiKeys, `fallbackApiKeys
      ensures (State(), taken) == RoutingSpec.TakeFallbackKeys(old(State()))
    {
      if fallbackApiKeys == [] {
        return false;
      }
      cloudApiKeys := fallbackApiKeys;
      fallbackApiKeys := [];
      trace := trace + [TakeReserve];
      return true;
    }

    /** False when the request was answered with a 429 because no Cloud credit pool is left. */
    method Dispatch() returns (dispatched: bool)
      modifies this
      ensures var (p, out) := RoutingSpec.Dispatch(o, q, old(State()), initialBackend);
              State() == p && dispatched == out.Some? && (dispatched ==> outcome == out.value)
    {
      if initialBackend == Cloud {
        var attempt := ProxyCloud();
        if attempt.Some? {
          outcome := Outcome(Cloud, attempt.value, false);
          return true;
        }
        if !IsCloudQuotaFallbackAllowed(q.mode, q.needsCloud) {
          var taken := TakeFallbackKeys();
          if !taken {
            return false;
          }
          var reserve := ProxyCloud();
          if reserve.None? {
            return false;
          }
          outcome := Outcome(Cloud, reserve.value, true);
          return true;
        }
        var instead := ProxySelfHosted();
        outcome := Outcome(SelfHosted, instead, true);
        return true;
      }
      var answer := ProxySelfHosted();
      outcome := Outcome(SelfHosted, answer, false);
      if cloudApiKeys != [] && FallbackEligible(answer) && IsFallbackAllowed(q.mode, q.privacy) {
        var attempt := ProxyCloud();
        if attempt.Some? {
          outcome := Outcome(Cloud, attempt.value, true);
        }
      }
      return true;
    }

    /** Goes on to other keys; true when all the keys tried had run out. */
    method RotateCloudKeys() returns (exhausted: bool)
      modifies this
      ensures (State(), outcome, exhausted) == Rotate(o, old(State()), old(outcome))
    {
      var first := outcome;
      if first.backend != Cloud || first.answer.NetworkError? || !Retryable(first.answer.status) {
        return false;
      }
      var attempts := 1;
      var quotaAttempts := if OutOfCapacity(first.answer.status) then 1 else 0;
      while true
        invariant RotateFrom(o, State(), outcome, attempts, quotaAttempts) == Rotate(o, old(State()), first)
        decreases Ids(o, cloudApiKeys) - attemptedCloudKeyIds
      {
        var next := ProxyCloud();
        if next.None? {
          break;
        }
        attempts := attempts + 1;
        if next.value.Response? && OutOfCapacity(next.value.status) {
          quotaAttempts := quotaAttempts + 1;
        }
        outcome := outcome.(backend := Cloud, answer := next.value);
        if next.value.Response? && !Retryable(next.value.status) {
          outcome := outcome.(fallbackUsed := true);
          break;
        }
      }
      return quotaAttempts == attempts;
    }

    method FallBackToSelfHosted()
      modifies this
      ensures (State(), outcome) == RoutingSpec.FallBackToSelfHosted(o, q, old(State()), old(outcome))
    {
      if selfHostedAttempted || !CloudOutOfQuota(outcome) || !IsCloudQuotaFallbackAllowed(q.mode, q.needsCloud) {
        return;
      }
      outcome := outcome.(fallbackUsed := true);
      var answer := ProxySelfHosted();
      outcome := outcome.(backend := SelfHosted, answer := answer);
    }

    /** Whether the reserve keys replaced the outcome. */
    method FallBackToFallbackKeys() returns (replaced: bool)
      modifies this
      ensures (State(), outcome, replaced) == RoutingSpec.FallBackToFallbackKeys(o, q, old(State()), old(outcome))
    {
      if fallbackApiKeys == [] {
        return false;
      }
      var outOfQuota := q.needsCloud && CloudOutOfQuota(outcome);
      var selfHostedFailed :=
        outcome.backend == SelfHosted && FallbackEligible(outcome.answer) && IsFallbackAllowed(q.mode, q.privacy);
      if !outOfQuota && !selfHostedFailed {
        return false;
      }
      var _ := TakeFallbackKeys();
      var attempt := ProxyCloud();
      if attempt.None? {
        return false;
      }
      outcome := Outcome(Cloud, attempt.value, true);
      return true;
    }

    /** The routing part of a request, after a cache miss: what `Handle` says, whatever the outside answers. */
    method Handle() returns (answered: bool)
      modifies this
      ensures var (p, out) := RoutingSpec.Handle(o, q, old(State()), initialBackend);
              State() == p && answered == out.Some? && (answered ==> outcome == out.value)
    {
      var dispatched := Dispatch();
      if !dispatched {
        return false;
      }
      var exhausted := RotateCloudKeys();
      if exhausted {
        FallBackToSelfHosted();
      }
      var replaced := FallBackToFallbackKeys();
      if replaced {
        var _ := RotateCloudKeys();
      }
      return true;
    }
  }
}
