/** What every routed request does to the outside, for every oracle of reservations and upstream answers. */
module RoutingProofs {
  import opened Common
  import opened Policy
  import opened RoutingSpec

  // ---------------------------------------------------------------- trace predicates

  predicate IsCall(e: Event) {
    e.CloudCall? || e.SelfHostedCall?
  }

  function CloudCalls(trace: seq<Event>): nat {
    if trace == [] then 0
    else CloudCalls(trace[..|trace| - 1]) + (if trace[|trace| - 1].CloudCall? then 1 else 0)
  }

  function SelfHostedCalls(trace: seq<Event>): nat {
    if trace == [] then 0
    else SelfHostedCalls(trace[..|trace| - 1]) + (if trace[|trace| - 1].SelfHostedCall? then 1 else 0)
  }

  function LastCall(trace: seq<Event>): Option<Event> {
    if trace == [] then None
    else if IsCall(trace[|trace| - 1]) then Some(trace[|trace| - 1])
    else LastCall(trace[..|trace| - 1])
  }

  /** No Cloud key id is called twice. */
  predicate DistinctKeyIds(trace: seq<Event>) {
    forall i, j :: 0 <= i < j < |trace| && trace[i].CloudCall? && trace[j].CloudCall? ==> trace[i].id != trace[j].id
  }

  predicate NoCloudAfterSelfHosted(trace: seq<Event>) {
    forall i, j :: 0 <= i < j < |trace| && trace[i].SelfHostedCall? ==> !trace[j].CloudCall?
  }

  predicate NeverSelfHosted(trace: seq<Event>) {
    forall i :: 0 <= i < |trace| ==> !trace[i].SelfHostedCall?
  }

  predicate NeverCloud(trace: seq<Event>) {
    forall i :: 0 <= i < |trace| ==> !trace[i].CloudCall?
  }

  /** A reservation on this pool came back empty. */
  predicate Asked(trace: seq<Event>, pool: seq<string>) {
    exists i :: 0 <= i < |trace| && trace[i] == NoReservation(pool)
  }

  predicate Took(trace: seq<Event>) {
    exists i :: 0 <= i < |trace| && trace[i].TakeReserve?
  }

  /**
    Cloud keys come from the first pool until the reserve is taken and from the
    reserve afterwards; it is taken at most once, and only after a reservation
    on the first pool returned nothing.
   */
  predicate PoolsInOrder(trace: seq<Event>, first: seq<string>, reserve: seq<string>) {
    && (forall i :: 0 <= i < |trace| && trace[i].CloudCall? ==>
          trace[i].key in (if Took(trace[..i]) then reserve else first))
    && (forall i :: 0 <= i < |trace| && trace[i].TakeReserve? ==> Asked(trace[..i], first) && !Took(trace[..i]))
  }

  predicate Reached(trace: seq<Event>) {
    exists i :: 0 <= i < |trace| && (trace[i].CloudCall? || (trace[i].SelfHostedCall? && trace[i].reached))
  }

  predicate Private(q: Request) {
    q.privacy.hasSensitiveHeaders || q.privacy.hasPrivateTargetUrl
  }

  predicate CloudBound(q: Request) {
    q.mode == CloudOnly || q.needsCloud
  }

  /** Every call so far went to this backend. */
  predicate OnlyOn(trace: seq<Event>, backend: Backend) {
    if backend == Cloud then NeverSelfHosted(trace) else NeverCloud(trace)
  }

  // ---------------------------------------------------------------- one event at a time

  lemma SnocPrefixes(trace: seq<Event>, e: Event)
    ensures (trace + [e])[..|trace|] == trace && (trace + [e])[|trace|] == e
    ensures forall i :: 0 <= i <= |trace| ==> (trace + [e])[..i] == trace[..i]
  {
  }

  lemma SnocCounts(trace: seq<Event>, e: Event)
    ensures CloudCalls(trace + [e]) == CloudCalls(trace) + (if e.CloudCall? then 1 else 0)
    ensures SelfHostedCalls(trace + [e]) == SelfHostedCalls(trace) + (if e.SelfHostedCall? then 1 else 0)
    ensures LastCall(trace + [e]) == if IsCall(e) then Some(e) else LastCall(trace)
  {
    assert (trace + [e])[..|trace|] == trace;
  }

  lemma SnocTook(trace: seq<Event>, e: Event)
    ensures Took(trace + [e]) <==> Took(trace) || e.TakeReserve?
  {
    var t := trace + [e];
    assert t[|trace|] == e && forall i :: 0 <= i < |trace| ==> t[i] == trace[i];
  }

  lemma SnocAsked(trace: seq<Event>, e: Event, pool: seq<string>)
    ensures Asked(trace + [e], pool) <==> Asked(trace, pool) || e == NoReservation(pool)
  {
    var t := trace + [e];
    assert t[|trace|] == e && forall i :: 0 <= i < |trace| ==> t[i] == trace[i];
  }

  lemma SnocReached(trace: seq<Event>, e: Event)
    ensures Reached(trace + [e]) <==> Reached(trace) || e.CloudCall? || (e.SelfHostedCall? && e.reached)
  {
    var t := trace + [e];
    assert t[|trace|] == e && forall i :: 0 <= i < |trace| ==> t[i] == trace[i];
  }

  lemma SnocOnly(trace: seq<Event>, e: Event, backend: Backend)
    requires OnlyOn(trace, backend) && !(if backend == Cloud then e.SelfHostedCall? else e.CloudCall?)
    ensures OnlyOn(trace + [e], backend)
  {
  }

  lemma SnocPools(trace: seq<Event>, e: Event, first: seq<string>, reserve: seq<string>)
    requires PoolsInOrder(trace, first, reserve)
    requires e.CloudCall? ==> e.key in (if Took(trace) then reserve else first)
    requires e.TakeReserve? ==> Asked(trace, first) && !Took(trace)
    ensures PoolsInOrder(trace + [e], first, reserve)
  {
    hide Took, Asked;
    SnocPrefixes(trace, e);
    var t := trace + [e];
    assert trace[..|trace|] == trace;
    forall i | 0 <= i < |t| && t[i].CloudCall? ensures t[i].key in (if Took(t[..i]) then reserve else first) {
      if i < |trace| {
        assert t[i] == trace[i] && t[..i] == trace[..i];
      }
    }
    forall i | 0 <= i < |t| && t[i].TakeReserve? ensures Asked(t[..i], first) && !Took(t[..i]) {
      if i < |trace| {
        assert t[i] == trace[i] && t[..i] == trace[..i];
      }
    }
  }

  // ---------------------------------------------------------------- the invariant of the stages

  predicate CallsFit(o: Oracle, p: Plan) {
    && DistinctKeyIds(p.trace)
    && (forall i :: 0 <= i < |p.trace| && p.trace[i].CloudCall? ==>
          p.trace[i].id == o.keyId(p.trace[i].key) && p.trace[i].id in p.attempted)
    && CloudCalls(p.trace) == |p.attempted|
    && SelfHostedCalls(p.trace) == (if p.selfHostedAttempted then 1 else 0)
    && (!p.selfHostedAttempted ==> NeverSelfHosted(p.trace))
    && (p.upstreamAttempted <==> Reached(p.trace))
  }

  predicate PoolsFit(o: Oracle, p: Plan, first: seq<string>, reserve: seq<string>) {
    && PoolsInOrder(p.trace, first, reserve)
    && p.attempted <= Ids(o, first) + Ids(o, reserve)
    && (if Took(p.trace) then p.cloudKeys == reserve && p.fallbackKeys == [] && reserve != []
        else p.cloudKeys == first && p.fallbackKeys == reserve)
  }

  predicate SafetyFits(q: Request, p: Plan) {
    && (Private(q) ==> NoCloudAfterSelfHosted(p.trace))
    && (CloudBound(q) ==> NeverSelfHosted(p.trace))
  }

  predicate Fits(o: Oracle, q: Request, p: Plan, first: seq<string>, reserve: seq<string>) {
    CallsFit(o, p) && PoolsFit(o, p, first, reserve) && SafetyFits(q, p)
  }

  /** The outcome is the answer of the last call, and unflagged only if nothing but the initial backend was called. */
  predicate OutcomeFits(p: Plan, out: Outcome, initial: Backend) {
    && LastCall(p.trace).Some?
    && (match LastCall(p.trace).value
        case CloudCall(_, _, answer) => out.backend == Cloud && out.answer == answer
        case SelfHostedCall(answer, _) => out.backend == SelfHosted && out.answer == answer
        case _ => false)
    && (!out.fallbackUsed ==> out.backend == initial && OnlyOn(p.trace, initial))
  }

  /** What the stages pass on. A private request that has been to self-hosted never comes back with a Cloud outcome. */
  predicate Stage(o: Oracle, q: Request, p: Plan, out: Outcome, first: seq<string>, reserve: seq<string>,
                  initial: Backend) {
    && Fits(o, q, p, first, reserve) && OutcomeFits(p, out, initial)
    && (Private(q) && p.selfHostedAttempted ==> out.backend == SelfHosted)
  }

  /** `r` is `p` after the event `e`, which is no takeover, with the bookkeeping of `e`. */
  predicate Extends(o: Oracle, p: Plan, r: Plan, e: Event) {
    && r.trace == p.trace + [e] && r.cloudKeys == p.cloudKeys && r.fallbackKeys == p.fallbackKeys
    && (match e
        case CloudCall(key, id, _) =>
          && key in p.cloudKeys && id == o.keyId(key) && id !in p.attempted
          && r.attempted == p.attempted + {id} && r.upstreamAttempted
          && r.selfHostedAttempted == p.selfHostedAttempted
        case SelfHostedCall(_, reached) =>
          && r.attempted == p.attempted && r.selfHostedAttempted && !p.selfHostedAttempted
          && r.upstreamAttempted == (p.upstreamAttempted || reached)
        case NoReservation(_) =>
          && r.attempted == p.attempted && r.upstreamAttempted == p.upstreamAttempted
          && r.selfHostedAttempted == p.selfHostedAttempted
        case TakeReserve => false)
  }

  lemma ExtendsCalls(o: Oracle, p: Plan, r: Plan, e: Event)
    requires CallsFit(o, p) && Extends(o, p, r, e)
    ensures CallsFit(o, r)
  {
    hide Reached, CloudCalls, SelfHostedCalls;
    SnocCounts(p.trace, e);
    SnocReached(p.trace, e);
  }

  lemma ExtendsPools(o: Oracle, p: Plan, r: Plan, e: Event, first: seq<string>, reserve: seq<string>)
    requires PoolsFit(o, p, first, reserve) && Extends(o, p, r, e)
    ensures PoolsFit(o, r, first, reserve)
  {
    hide Took, PoolsInOrder;
    SnocTook(p.trace, e);
    SnocPools(p.trace, e, first, reserve);
    assert e.CloudCall? ==> e.id in Ids(o, p.cloudKeys);
  }

  lemma ExtendsSafety(q: Request, o: Oracle, p: Plan, r: Plan, e: Event)
    requires SafetyFits(q, p) && CallsFit(o, p) && Extends(o, p, r, e)
    requires e.CloudCall? && Private(q) ==> !p.selfHostedAttempted
    requires e.SelfHostedCall? ==> !CloudBound(q)
    ensures SafetyFits(q, r)
  {
    hide Reached, CloudCalls, SelfHostedCalls, DistinctKeyIds;
  }

  lemma ExtendsFits(o: Oracle, q: Request, p: Plan, r: Plan, e: Event, first: seq<string>, reserve: seq<string>)
    requires Fits(o, q, p, first, reserve) && Extends(o, p, r, e)
    requires e.CloudCall? && Private(q) ==> !p.selfHostedAttempted
    requires e.SelfHostedCall? ==> !CloudBound(q)
    ensures Fits(o, q, r, first, reserve)
  {
    hide CallsFit, PoolsFit, SafetyFits, Extends;
    ExtendsCalls(o, p, r, e);
    ExtendsPools(o, p, r, e, first, reserve);
    ExtendsSafety(q, o, p, r, e);
  }

  /** The event of one Cloud attempt. */
  lemma CloudEvent(o: Oracle, p: Plan) returns (e: Event)
    ensures var (r, attempt) := ProxyCloud(o, p);
            && Extends(o, p, r, e)
            && (match attempt
                case None => e == NoReservation(p.cloudKeys)
                case Some(a) => e.CloudCall? && e.answer == a)
  {
    var candidates := Candidates(o, p.cloudKeys, p.attempted);
    CandidatesAreNew(o, p.cloudKeys, p.attempted);
    var index := o.choose(p.trace, candidates);
    if index.None? || index.value >= |candidates| {
      e := NoReservation(p.cloudKeys);
    } else {
      var key := candidates[index.value];
      assert key in candidates;
      e := CloudCall(key, o.keyId(key), o.cloud(p.trace));
    }
  }

  lemma CloudStep(o: Oracle, q: Request, p: Plan, first: seq<string>, reserve: seq<string>)
    requires Fits(o, q, p, first, reserve)
    requires Private(q) ==> !p.selfHostedAttempted
    ensures var (r, attempt) := ProxyCloud(o, p);
            && Fits(o, q, r, first, reserve)
            && r.cloudKeys == p.cloudKeys && r.fallbackKeys == p.fallbackKeys
            && r.selfHostedAttempted == p.selfHostedAttempted
            && (attempt.None? ==> Asked(r.trace, p.cloudKeys) && LastCall(r.trace) == LastCall(p.trace)
                                  && forall b :: OnlyOn(p.trace, b) ==> OnlyOn(r.trace, b))
            && (attempt.Some? ==> LastCall(r.trace).Some? && LastCall(r.trace).value.CloudCall?
                                  && LastCall(r.trace).value.answer == attempt.value
                                  && (OnlyOn(p.trace, Cloud) ==> OnlyOn(r.trace, Cloud)))
            && (forall pool :: Asked(p.trace, pool) ==> Asked(r.trace, pool))
  {
    hide Fits, Asked, OnlyOn, ProxyCloud;
    var (r, attempt) := ProxyCloud(o, p);
    var e := CloudEvent(o, p);
    ExtendsFits(o, q, p, r, e, first, reserve);
    SnocCounts(p.trace, e);
    forall pool ensures Asked(r.trace, pool) <==> Asked(p.trace, pool) || e == NoReservation(pool) {
      SnocAsked(p.trace, e, pool);
    }
    forall b | OnlyOn(p.trace, b) && (b == Cloud || attempt.None?) ensures OnlyOn(r.trace, b) {
      SnocOnly(p.trace, e, b);
    }
  }

  lemma SelfHostedStep(o: Oracle, q: Request, p: Plan, first: seq<string>, reserve: seq<string>)
    requires Fits(o, q, p, first, reserve) && !p.selfHostedAttempted && !CloudBound(q)
    ensures var (r, answer) := ProxySelfHosted(o, p);
            && Fits(o, q, r, first, reserve)
            && r.cloudKeys == p.cloudKeys && r.fallbackKeys == p.fallbackKeys
            && LastCall(r.trace).Some? && LastCall(r.trace).value.SelfHostedCall?
            && LastCall(r.trace).value.answer == answer
            && (OnlyOn(p.trace, SelfHosted) ==> OnlyOn(r.trace, SelfHosted))
            && (forall pool :: Asked(p.trace, pool) ==> Asked(r.trace, pool))
  {
    hide Fits, Asked, OnlyOn;
    var (r, answer) := ProxySelfHosted(o, p);
    var e := SelfHostedCall(answer, o.selfHosted(p.trace).1);
    ExtendsFits(o, q, p, r, e, first, reserve);
    SnocCounts(p.trace, e);
    forall pool ensures Asked(r.trace, pool) <==> Asked(p.trace, pool) {
      SnocAsked(p.trace, e, pool);
    }
    if OnlyOn(p.trace, SelfHosted) {
      SnocOnly(p.trace, e, SelfHosted);
    }
  }

  lemma TakeStep(o: Oracle, q: Request, p: Plan, first: seq<string>, reserve: seq<string>)
    requires Fits(o, q, p, first, reserve) && p.fallbackKeys != [] && Asked(p.trace, first)
    ensures var (r, taken) := TakeFallbackKeys(p);
            && taken && Fits(o, q, r, first, reserve) && r.fallbackKeys == []
            && r.selfHostedAttempted == p.selfHostedAttempted
            && LastCall(r.trace) == LastCall(p.trace)
            && (forall b :: OnlyOn(p.trace, b) ==> OnlyOn(r.trace, b))
  {
    hide Took, Asked, Reached, CloudCalls, SelfHostedCalls, PoolsInOrder;
    SnocCounts(p.trace, TakeReserve);
    SnocTook(p.trace, TakeReserve);
    SnocReached(p.trace, TakeReserve);
    SnocPools(p.trace, TakeReserve, first, reserve);
  }

  /** Held-back keys exist only for a hybrid request that starts on Cloud. */
  predicate PlanFits(q: Request, first: seq<string>, reserve: seq<string>, initial: Backend) {
    && (reserve != [] ==> initial == Cloud)
    && (initial == SelfHosted ==> !CloudBound(q))
  }

  /**
    Once self-hosted or an out-of-quota Cloud answer is on the table with a reserve left, the first
    pool has been asked in vain.
   */
  predicate ReserveEarned(p: Plan, out: Outcome, first: seq<string>) {
    p.fallbackKeys != [] && (out.backend == SelfHosted || CloudOutOfQuota(out)) ==> Asked(p.trace, first)
  }

  lemma DispatchStage(o: Oracle, q: Request, p: Plan, first: seq<string>, reserve: seq<string>, initial: Backend)
    requires Fits(o, q, p, first, reserve) && PlanFits(q, first, reserve, initial)
    requires p.trace == [] && !p.selfHostedAttempted
    ensures var (r, out) := Dispatch(o, q, p, initial);
            && Fits(o, q, r, first, reserve)
            && (out.Some? ==> Stage(o, q, r, out.value, first, reserve, initial))
            && (out.Some? && out.value.backend == SelfHosted && r.fallbackKeys != [] ==> Asked(r.trace, first))
            && (out.None? ==> LastCall(r.trace).None?)
  {
    hide Fits, Asked, ProxyCloud, ProxySelfHosted;
    Untaken(o, q, p, first, reserve);
    if initial == Cloud {
      CloudStep(o, q, p, first, reserve);
      var (p1, attempt) := ProxyCloud(o, p);
      if attempt.None? {
        if !IsCloudQuotaFallbackAllowed(q.mode, q.needsCloud) {
          if p1.fallbackKeys != [] {
            TakeStep(o, q, p1, first, reserve);
            var p2 := TakeFallbackKeys(p1).0;
            CloudStep(o, q, p2, first, reserve);
            assert LastCall(p2.trace).None?;
            assert LastCall(ProxyCloud(o, p2).0.trace) == LastCall(p2.trace) || ProxyCloud(o, p2).1.Some?;
          }
        } else {
          SelfHostedStep(o, q, p1, first, reserve);
        }
      }
    } else {
      SelfHostedStep(o, q, p, first, reserve);
      var (p1, answer) := ProxySelfHosted(o, p);
      if p1.cloudKeys != [] && FallbackEligible(answer) && IsFallbackAllowed(q.mode, q.privacy) {
        CloudStep(o, q, p1, first, reserve);
        var (p2, attempt) := ProxyCloud(o, p1);
        assert OnlyOn(p1.trace, SelfHosted);
        assert attempt.None? ==> OnlyOn(p2.trace, SelfHosted);
      }
    }
  }

  lemma Untaken(o: Oracle, q: Request, p: Plan, first: seq<string>, reserve: seq<string>)
    requires Fits(o, q, p, first, reserve) && p.trace == []
    ensures p.cloudKeys == first && p.fallbackKeys == reserve
    ensures LastCall(p.trace).None? && forall b :: OnlyOn(p.trace, b)
  {
  }

  lemma {:induction false} RotateFromStage(o: Oracle, q: Request, p: Plan, out: Outcome, attempts: nat, quota: nat,
                        first: seq<string>, reserve: seq<string>, initial: Backend)
    requires Stage(o, q, p, out, first, reserve, initial) && out.backend == Cloud && quota <= attempts
    ensures var (r, result, exhausted) := RotateFrom(o, p, out, attempts, quota);
            && Stage(o, q, r, result, first, reserve, initial) && result.backend == Cloud
            && r.cloudKeys == p.cloudKeys && r.fallbackKeys == p.fallbackKeys
            && r.selfHostedAttempted == p.selfHostedAttempted
            && (exhausted || CloudOutOfQuota(result) ==> Asked(r.trace, p.cloudKeys))
    decreases Ids(o, p.cloudKeys) - p.attempted
  {
    hide Fits, Asked;
    ProxyCloudUsesNewKey(o, p);
    CloudStep(o, q, p, first, reserve);
    var (p1, next) := ProxyCloud(o, p);
    if next.Some? && !(next.value.Response? && !Retryable(next.value.status)) {
      var more := quota + (if next.value.Response? && OutOfCapacity(next.value.status) then 1 else 0);
      RotateFromStage(o, q, p1, out.(backend := Cloud, answer := next.value), attempts + 1, more, first,
                      reserve, initial);
    }
  }

  lemma RotateStage(o: Oracle, q: Request, p: Plan, out: Outcome, first: seq<string>, reserve: seq<string>,
                    initial: Backend)
    requires Stage(o, q, p, out, first, reserve, initial)
    requires out.backend == SelfHosted && p.fallbackKeys != [] ==> Asked(p.trace, first)
    ensures var (r, result, exhausted) := Rotate(o, p, out);
            && Stage(o, q, r, result, first, reserve, initial) && result.backend == out.backend
            && r.selfHostedAttempted == p.selfHostedAttempted
            && ReserveEarned(r, result, first)
            && (exhausted && r.fallbackKeys != [] ==> Asked(r.trace, first))
  {
    hide CallsFit, PoolsInOrder, SafetyFits, Asked, Took;
    if out.backend == Cloud && out.answer.Response? && Retryable(out.answer.status) {
      var quota := if OutOfCapacity(out.answer.status) then 1 else 0;
      RotateFromStage(o, q, p, out, 1, quota, first, reserve, initial);
    }
  }

  lemma SelfHostedStage(o: Oracle, q: Request, p: Plan, out: Outcome, first: seq<string>, reserve: seq<string>,
                        initial: Backend)
    requires Stage(o, q, p, out, first, reserve, initial) && ReserveEarned(p, out, first)
    requires p.fallbackKeys != [] ==> Asked(p.trace, first)
    ensures var (r, result) := FallBackToSelfHosted(o, q, p, out);
            Stage(o, q, r, result, first, reserve, initial) && ReserveEarned(r, result, first)
  {
    hide CallsFit, PoolsFit, SafetyFits, Asked;
    if !(p.selfHostedAttempted || !CloudOutOfQuota(out) || !IsCloudQuotaFallbackAllowed(q.mode, q.needsCloud)) {
      SelfHostedStep(o, q, p, first, reserve);
    }
  }

  lemma ReserveStage(o: Oracle, q: Request, p: Plan, out: Outcome, first: seq<string>, reserve: seq<string>,
                     initial: Backend)
    requires Stage(o, q, p, out, first, reserve, initial) && ReserveEarned(p, out, first)
    ensures var (r, result, replaced) := FallBackToFallbackKeys(o, q, p, out);
            && Stage(o, q, r, result, first, reserve, initial)
            && (replaced ==> result.backend == Cloud && r.fallbackKeys == [])
  {
    hide CallsFit, PoolsFit, Asked;
    var selfHostedFailed :=
      out.backend == SelfHosted && FallbackEligible(out.answer) && IsFallbackAllowed(q.mode, q.privacy);
    if p.fallbackKeys != [] && ((q.needsCloud && CloudOutOfQuota(out)) || selfHostedFailed) {
      TakeStep(o, q, p, first, reserve);
      var p1 := TakeFallbackKeys(p).0;
      CloudStep(o, q, p1, first, reserve);
    }
  }

  lemma HandleStage(o: Oracle, q: Request, p: Plan, first: seq<string>, reserve: seq<string>, initial: Backend)
    requires Fits(o, q, p, first, reserve) && PlanFits(q, first, reserve, initial)
    requires p.trace == [] && !p.selfHostedAttempted
    ensures var (r, out) := Handle(o, q, p, initial);
            && Fits(o, q, r, first, reserve)
            && (out.Some? ==> OutcomeFits(r, out.value, initial))
            && (out.None? ==> LastCall(r.trace).None?)
  {
    hide Fits, OutcomeFits, Asked, Dispatch, Rotate, FallBackToSelfHosted, FallBackToFallbackKeys;
    DispatchStage(o, q, p, first, reserve, initial);
    var (p1, dispatched) := Dispatch(o, q, p, initial);
    if dispatched.Some? {
      RotateStage(o, q, p1, dispatched.value, first, reserve, initial);
      var (p2, out2, exhausted) := Rotate(o, p1, dispatched.value);
      if exhausted {
        SelfHostedStage(o, q, p2, out2, first, reserve, initial);
      }
      var (p3, out3) := if exhausted then FallBackToSelfHosted(o, q, p2, out2) else (p2, out2);
      ReserveStage(o, q, p3, out3, first, reserve, initial);
      var (p4, out4, replaced) := FallBackToFallbackKeys(o, q, p3, out3);
      if replaced {
        RotateStage(o, q, p4, out4, first, reserve, initial);
      }
    }
  }

  // ---------------------------------------------------------------- planning

  lemma StartFits(o: Oracle, q: Request, entries: seq<KeyEntry>)
    requires BuildPlan(q, entries).Planned?
    ensures var planned := BuildPlan(q, entries);
            && Fits(o, q, StartPlan(planned), planned.cloudKeys, planned.fallbackKeys)
            && PlanFits(q, planned.cloudKeys, planned.fallbackKeys, planned.initial)
            && (q.mode == SelfHostedOnly ==> planned.cloudKeys == [] && planned.fallbackKeys == [])
  {
    var planned := BuildPlan(q, entries);
    assert !Took([]) && !Reached([]);
  }

  // ---------------------------------------------------------------- main results

  /**
    A request is refused before any call exactly when self-hosted-only meets a
    request that needs Cloud (409), or Cloud has to serve it and no key is
    configured (502).
   */
  lemma PlanRefusals(q: Request, entries: seq<KeyEntry>)
    ensures BuildPlan(q, entries) == Refused(409) <==> q.mode == SelfHostedOnly && q.needsCloud
    ensures BuildPlan(q, entries) == Refused(502) <==>
              entries == [] && (q.mode == CloudFirst || q.mode == CloudOnly
                                || (q.needsCloud && q.mode != SelfHostedOnly))
    ensures BuildPlan(q, entries).Refused? ==> BuildPlan(q, entries).status in {409, 502}
    ensures BuildPlan(q, entries).Planned? && BuildPlan(q, entries).initial == Cloud ==>
            BuildPlan(q, entries).cloudKeys != []
  {
    SomeRole(entries);
    assert AllKeys(entries) == [] <==> entries == [];
  }

  lemma {:induction false} SomeRole(entries: seq<KeyEntry>)
    ensures KeysWithRole(entries, CloudRole) == [] && KeysWithRole(entries, FallbackRole) == [] <==> entries == []
  {
    if entries != [] {
      SomeRole(entries[1..]);
    }
  }

  /**
    Main result 1, for every oracle: a request calls self-hosted at most once
    and no Cloud key id twice; it makes at most one call more than there are
    distinct configured key ids; the response is the answer of the last call, or
    a refusal without any call.
   */
  lemma BoundedSearch(o: Oracle, q: Request, entries: seq<KeyEntry>)
    ensures var (trace, out) := Route(o, q, entries);
            && SelfHostedCalls(trace) <= 1
            && DistinctKeyIds(trace)
            && CloudCalls(trace) <= |Ids(o, AllKeys(entries))|
            && (match out
                case Some(result) =>
                  LastCall(trace).Some? &&
                  (match LastCall(trace).value
                   case CloudCall(_, _, answer) => result.backend == Cloud && result.answer == answer
                   case SelfHostedCall(answer, _) => result.backend == SelfHosted && result.answer == answer
                   case _ => false)
                case None => LastCall(trace).None?)
  {
    var planned := BuildPlan(q, entries);
    if planned.Planned? {
      StartFits(o, q, entries);
      HandleStage(o, q, StartPlan(planned), planned.cloudKeys, planned.fallbackKeys, planned.initial);
      var end := Handle(o, q, StartPlan(planned), planned.initial).0;
      PlannedKeys(q, entries);
      forall id | id in end.attempted ensures id in Ids(o, AllKeys(entries)) {
        assert id in Ids(o, planned.cloudKeys) || id in Ids(o, planned.fallbackKeys);
      }
      SubsetSize(end.attempted, Ids(o, AllKeys(entries)));
    }
  }

  lemma {:induction false} RoleKeys(entries: seq<KeyEntry>, role: Role)
    ensures forall k :: k in KeysWithRole(entries, role) ==> k in AllKeys(entries)
  {
    if entries != [] {
      RoleKeys(entries[1..], role);
      assert AllKeys(entries) == [entries[0].key] + AllKeys(entries[1..]);
    }
  }

  lemma PlannedKeys(q: Request, entries: seq<KeyEntry>)
    requires BuildPlan(q, entries).Planned?
    ensures var planned := BuildPlan(q, entries);
            && (forall k :: k in planned.cloudKeys ==> k in AllKeys(entries))
            && (forall k :: k in planned.fallbackKeys ==> k in AllKeys(entries))
  {
    RoleKeys(entries, CloudRole);
    RoleKeys(entries, FallbackRole);
    assert AllKeys([]) == [];
  }

  /**
    Main result 2, for every oracle: self-hosted-only never reaches Cloud;
    cloud-only and Cloud-required requests never reach self-hosted; a request
    with sensitive headers or a private target never goes to Cloud after
    self-hosted; and a response without the fallback flag came from the initial
    backend, the only one called.
   */
  lemma ModesAreSafe(o: Oracle, q: Request, entries: seq<KeyEntry>)
    ensures var (trace, out) := Route(o, q, entries);
            && (q.mode == SelfHostedOnly ==> NeverCloud(trace))
            && (CloudBound(q) ==> NeverSelfHosted(trace))
            && (Private(q) ==> NoCloudAfterSelfHosted(trace))
            && (out.Some? && !out.value.fallbackUsed ==>
                  && BuildPlan(q, entries).Planned?
                  && out.value.backend == BuildPlan(q, entries).initial
                  && OnlyOn(trace, BuildPlan(q, entries).initial))
  {
    var planned := BuildPlan(q, entries);
    if planned.Planned? {
      StartFits(o, q, entries);
      HandleStage(o, q, StartPlan(planned), planned.cloudKeys, planned.fallbackKeys, planned.initial);
    }
  }

  /**
    Main result 3, for every oracle: with a cloud-role key configured, hybrid
    calls only cloud-role keys until a reservation on them returned nothing,
    then takes the fallback-role keys at most once; without the hybrid mode
    nothing is ever held back.
   */
  lemma ReserveIsLastResort(o: Oracle, q: Request, entries: seq<KeyEntry>)
    ensures var (trace, _) := Route(o, q, entries);
            && (q.mode == Hybrid && KeysWithRole(entries, CloudRole) != [] ==>
                  PoolsInOrder(trace, KeysWithRole(entries, CloudRole), KeysWithRole(entries, FallbackRole)))
            && (q.mode != Hybrid ==> !Took(trace))
  {
    var planned := BuildPlan(q, entries);
    if planned.Planned? {
      StartFits(o, q, entries);
      HandleStage(o, q, StartPlan(planned), planned.cloudKeys, planned.fallbackKeys, planned.initial);
    }
  }
}
