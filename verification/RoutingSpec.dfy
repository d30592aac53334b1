/**
  One proxied request as a bounded search over Cloud keys, self-hosted and the
  hybrid reserve, against an oracle for everything outside: which key a
  reservation returns and what each upstream answers.
 */
module RoutingSpec {
  import opened Common
  import opened Policy

  type KeyId = string

  /** `unsupported`: an error body that says the feature is not available on this backend. */
  datatype Answer = Response(status: int, unsupported: bool) | NetworkError

  datatype Backend = Cloud | SelfHosted

  /** What a request does to the outside, in order. `reached` is false for a call the circuit breaker cut short. */
  datatype Event =
    | NoReservation(pool: seq<string>)
    | CloudCall(key: string, id: KeyId, answer: Answer)
    | SelfHostedCall(answer: Answer, reached: bool)
    | TakeReserve

  /** `choose` answers a reservation over the given candidates, `None` when no credit is left. */
  datatype Oracle = Oracle(
    keyId: string -> KeyId,
    choose: (seq<Event>, seq<string>) -> Option<nat>,
    cloud: seq<Event> -> Answer,
    selfHosted: seq<Event> -> (Answer, bool))

  datatype Request = Request(mode: RouteMode, needsCloud: bool, privacy: Privacy)

  /** The mutable part of the route plan, and the trace so far. */
  datatype Plan = Plan(
    cloudKeys: seq<string>,
    fallbackKeys: seq<string>,
    selfHostedAttempted: bool,
    upstreamAttempted: bool,
    attempted: set<KeyId>,
    trace: seq<Event>)

  datatype Outcome = Outcome(backend: Backend, answer: Answer, fallbackUsed: bool)

  // ---------------------------------------------------------------- statuses

  predicate Retryable(status: int) {
    status == 401 || status == 402 || status == 403 || status == 429
  }

  predicate OutOfCapacity(status: int) {
    status == 402 || status == 429
  }

  predicate FallbackEligible(a: Answer) {
    a.NetworkError? || a.status >= 500 || (a.status >= 400 && a.unsupported)
  }

  /** A Cloud outcome with a 402 or 429 response. */
  predicate CloudOutOfQuota(out: Outcome) {
    out.backend == Cloud && out.answer.Response? && OutOfCapacity(out.answer.status)
  }

  // ---------------------------------------------------------------- single attempts

  function Ids(o: Oracle, keys: seq<string>): set<KeyId> {
    set k | k in keys :: o.keyId(k)
  }

  /** The keys of the pool that have not been tried yet, in order. */
  function Candidates(o: Oracle, keys: seq<string>, attempted: set<KeyId>): seq<string> {
    if keys == [] then []
    else (if o.keyId(keys[0]) in attempted then [] else [keys[0]]) + Candidates(o, keys[1..], attempted)
  }

  lemma {:induction false} CandidatesAreNew(o: Oracle, keys: seq<string>, attempted: set<KeyId>)
    ensures forall k :: k in Candidates(o, keys, attempted) <==> k in keys && o.keyId(k) !in attempted
  {
    if keys != [] {
      CandidatesAreNew(o, keys[1..], attempted);
    }
  }

  /** `proxyCloud`: reserve a key, then call Cloud with it; None when nothing is reservable. */
  function ProxyCloud(o: Oracle, p: Plan): (Plan, Option<Answer>) {
    var candidates := Candidates(o, p.cloudKeys, p.attempted);
    var index := o.choose(p.trace, candidates);
    if index.None? || index.value >= |candidates| then
      (p.(trace := p.trace + [NoReservation(p.cloudKeys)]), None)
    else
      var key := candidates[index.value];
      var answer := o.cloud(p.trace);
      (p.(attempted := p.attempted + {o.keyId(key)},
          upstreamAttempted := true,
          trace := p.trace + [CloudCall(key, o.keyId(key), answer)]),
       Some(answer))
  }

  function ProxySelfHosted(o: Oracle, p: Plan): (Plan, Answer) {
    var (answer, reached) := o.selfHosted(p.trace);
    (p.(selfHostedAttempted := true,
        upstreamAttempted := p.upstreamAttempted || reached,
        trace := p.trace + [SelfHostedCall(answer, reached)]),
     answer)
  }

  /** `takeFallbackKeys`. */
  function TakeFallbackKeys(p: Plan): (Plan, bool) {
    if p.fallbackKeys == [] then (p, false)
    else (p.(cloudKeys := p.fallbackKeys, fallbackKeys := [], trace := p.trace + [TakeReserve]), true)
  }

  // ---------------------------------------------------------------- stages

  /** `dispatch`: None after a 429 because no Cloud credit pool is left. */
  function Dispatch(o: Oracle, q: Request, p: Plan, initial: Backend): (Plan, Option<Outcome>) {
    if initial == Cloud then
      var (p1, attempt) := ProxyCloud(o, p);
      if attempt.Some? then (p1, Some(Outcome(Cloud, attempt.value, false)))
      else if !IsCloudQuotaFallbackAllowed(q.mode, q.needsCloud) then
        var (p2, taken) := TakeFallbackKeys(p1);
        if !taken then (p2, None)
        else
          var (p3, reserve) := ProxyCloud(o, p2);
          (p3, if reserve.Some? then Some(Outcome(Cloud, reserve.value, true)) else None)
      else
        var (p2, answer) := ProxySelfHosted(o, p1);
        (p2, Some(Outcome(SelfHosted, answer, true)))
    else
      var (p1, answer) := ProxySelfHosted(o, p);
      if p1.cloudKeys != [] && FallbackEligible(answer) && IsFallbackAllowed(q.mode, q.privacy) then
        var (p2, attempt) := ProxyCloud(o, p1);
        (p2, Some(if attempt.Some? then Outcome(Cloud, attempt.value, true) else Outcome(SelfHosted, answer, false)))
      else (p1, Some(Outcome(SelfHosted, answer, false)))
  }

  lemma ProxyCloudUsesNewKey(o: Oracle, p: Plan)
    ensures var (r, attempt) := ProxyCloud(o, p);
            attempt.Some? ==> Ids(o, r.cloudKeys) - r.attempted < Ids(o, p.cloudKeys) - p.attempted
  {
    var candidates := Candidates(o, p.cloudKeys, p.attempted);
    CandidatesAreNew(o, p.cloudKeys, p.attempted);
    var index := o.choose(p.trace, candidates);
    if index.Some? && index.value < |candidates| {
      var id := o.keyId(candidates[index.value]);
      assert candidates[index.value] in candidates;
      assert id in Ids(o, p.cloudKeys) - p.attempted;
    }
  }

  /** The rotation loop: another key until one answers something final or none is left. */
  function RotateFrom(o: Oracle, p: Plan, out: Outcome, attempts: nat, quotaAttempts: nat): (Plan, Outcome, bool)
    decreases Ids(o, p.cloudKeys) - p.attempted
  {
    ProxyCloudUsesNewKey(o, p);
    var (p1, next) := ProxyCloud(o, p);
    if next.None? then (p1, out, quotaAttempts == attempts)
    else
      var quota := quotaAttempts + (if next.value.Response? && OutOfCapacity(next.value.status) then 1 else 0);
      if next.value.Response? && !Retryable(next.value.status) then
        (p1, Outcome(Cloud, next.value, true), quota == attempts + 1)
      else RotateFrom(o, p1, out.(backend := Cloud, answer := next.value), attempts + 1, quota)
  }

  /** `rotateCloudKeys`; the last component tells that all the keys tried had run out. */
  function Rotate(o: Oracle, p: Plan, out: Outcome): (Plan, Outcome, bool) {
    if out.backend != Cloud || out.answer.NetworkError? || !Retryable(out.answer.status) then (p, out, false)
    else RotateFrom(o, p, out, 1, if OutOfCapacity(out.answer.status) then 1 else 0)
  }

  function FallBackToSelfHosted(o: Oracle, q: Request, p: Plan, out: Outcome): (Plan, Outcome) {
    if p.selfHostedAttempted || !CloudOutOfQuota(out)
        || !IsCloudQuotaFallbackAllowed(q.mode, q.needsCloud) then (p, out)
    else
      var (p1, answer) := ProxySelfHosted(o, p);
      (p1, Outcome(SelfHosted, answer, true))
  }

  function FallBackToFallbackKeys(o: Oracle, q: Request, p: Plan, out: Outcome): (Plan, Outcome, bool) {
    var selfHostedFailed :=
      out.backend == SelfHosted && FallbackEligible(out.answer) && IsFallbackAllowed(q.mode, q.privacy);
    if p.fallbackKeys == [] || !((q.needsCloud && CloudOutOfQuota(out)) || selfHostedFailed) then (p, out, false)
    else
      var (p1, _) := TakeFallbackKeys(p);
      var (p2, attempt) := ProxyCloud(o, p1);
      if attempt.None? then (p2, out, false) else (p2, Outcome(Cloud, attempt.value, true), true)
  }

  /** The routing part of `handle`, after a cache miss. */
  function Handle(o: Oracle, q: Request, p: Plan, initial: Backend): (Plan, Option<Outcome>) {
    var (p1, dispatched) := Dispatch(o, q, p, initial);
    if dispatched.None? then (p1, None)
    else
      var (p2, out2, exhausted) := Rotate(o, p1, dispatched.value);
      var (p3, out3) := if exhausted then FallBackToSelfHosted(o, q, p2, out2) else (p2, out2);
      var (p4, out4, replaced) := FallBackToFallbackKeys(o, q, p3, out3);
      if replaced then
        var (p5, out5, _) := Rotate(o, p4, out4);
        (p5, Some(out5))
      else (p4, Some(out4))
  }

  // ---------------------------------------------------------------- planning

  datatype Planned = Planned(initial: Backend, cloudKeys: seq<string>, fallbackKeys: seq<string>) | Refused(status: int)

  /** `buildPlan` from the routing decision on; the key entries are only loaded when Cloud may be used. */
  function BuildPlan(q: Request, entries: seq<KeyEntry>): Planned {
    var first := ChooseInitialBackend(q.mode, q.needsCloud);
    var loaded := if MayUseCloudKeys(first, q.mode, q.privacy) then entries else [];
    var pools := SelectKeyPools(q.mode, first, q.needsCloud, loaded);
    if pools.initial == StartCloud && pools.cloudKeys == [] then Refused(502)
    else if pools.initial == Reject then Refused(409)
    else Planned(if pools.initial == StartCloud then Cloud else SelfHosted, pools.cloudKeys, pools.fallbackKeys)
  }

  function StartPlan(planned: Planned): Plan
    requires planned.Planned?
  {
    Plan(planned.cloudKeys, planned.fallbackKeys, false, false, {}, [])
  }

  /** A request from the routing decision to the response. */
  function Route(o: Oracle, q: Request, entries: seq<KeyEntry>): (seq<Event>, Option<Outcome>) {
    var planned := BuildPlan(q, entries);
    if planned.Refused? then ([], None)
    else
      var (end, out) := Handle(o, q, StartPlan(planned), planned.initial);
      (end.trace, out)
  }
}
