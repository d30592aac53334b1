/**
  What a routed request does next, as a rule on what it did so far, and that
  every request follows the rule from its first step to its last.
 */
module RoutingPolicy {
  import opened Common
  import opened Policy
  import opened RoutingSpec
  import opened RoutingProofs

  /** What does not change during a request: the plan's keys and first backend are those before any call. */
  datatype Setting = Setting(request: Request, first: seq<string>, reserve: seq<string>, initial: Backend)

  // ---------------------------------------------------------------- the rule

  datatype Action = TryCloud | TrySelfHosted | OpenReserve | Finish

  /** Cloud answers so far from the keys in use: those since the reserve was opened, once it is. */
  function CloudAnswers(trace: seq<Event>): seq<Answer> {
    if trace == [] then []
    else
      match trace[|trace| - 1]
      case TakeReserve => []
      case CloudCall(_, _, answer) => CloudAnswers(trace[..|trace| - 1]) + [answer]
      case _ => CloudAnswers(trace[..|trace| - 1])
  }

  predicate CalledSelfHosted(trace: seq<Event>) {
    exists i :: 0 <= i < |trace| && trace[i].SelfHostedCall?
  }

  /** Cloud turned this key away: bad credentials, no payment, no permission, or too many requests. */
  predicate KeyRejected(a: Answer) {
    a.Response? && (a.status == 401 || a.status == 402 || a.status == 403 || a.status == 429)
  }

  predicate NoCredit(a: Answer) {
    a.Response? && (a.status == 402 || a.status == 429)
  }

  predicate AllNoCredit(answers: seq<Answer>) {
    forall i :: 0 <= i < |answers| ==> NoCredit(answers[i])
  }

  /** Self-hosted gave no answer, a server error, or an error that says it cannot do this. */
  predicate SelfHostedFailed(a: Answer) {
    a.NetworkError? || a.status >= 500 || (400 <= a.status && a.unsupported)
  }

  /** Cloud running dry may be made up for by self-hosted. */
  predicate SelfHostedMayHelp(q: Request) {
    (q.mode == CloudFirst || q.mode == Hybrid) && !q.needsCloud
  }

  /** Self-hosted failing may be made up for by Cloud. */
  predicate CloudMayHelp(q: Request) {
    (q.mode == SelfHostedFirst || q.mode == Hybrid)
    && !q.privacy.hasSensitiveHeaders && !q.privacy.hasPrivateTargetUrl
  }

  predicate ReserveLeft(s: Setting, trace: seq<Event>) {
    s.reserve != [] && !Took(trace)
  }

  /** The rule. */
  function NextAction(s: Setting, trace: seq<Event>): Action {
    if trace == [] then (if s.initial == Cloud then TryCloud else TrySelfHosted)
    else
      match trace[|trace| - 1]
      case TakeReserve => TryCloud
      case CloudCall(_, _, answer) => AfterCloud(answer, |CloudAnswers(trace)|)
      case SelfHostedCall(answer, _) => AfterSelfHosted(s, trace, answer)
      case NoReservation(_) => AfterNoReservation(s, trace, CloudAnswers(trace))
  }

  /** A rejected key is left for another; so is one that gave no answer, unless it was the first. */
  function AfterCloud(answer: Answer, answers: nat): Action {
    if KeyRejected(answer) || (answer.NetworkError? && answers > 1) then TryCloud else Finish
  }

  /** Failed self-hosted is made up for by Cloud keys if it came first, else by the reserve. */
  function AfterSelfHosted(s: Setting, trace: seq<Event>, answer: Answer): Action {
    if !SelfHostedFailed(answer) || !CloudMayHelp(s.request) then Finish
    else if |trace| == 1 && s.first != [] then TryCloud
    else if ReserveLeft(s, trace) then OpenReserve
    else Finish
  }

  /**
    No key can be reserved any more. Self-hosted helps out if it was not called yet
    and all that Cloud ever answered was that credit is used up; the reserve where
    only Cloud will do.
   */
  function AfterNoReservation(s: Setting, trace: seq<Event>, answers: seq<Answer>): Action {
    var first := |trace| == 1;
    if SelfHostedMayHelp(s.request) && !CalledSelfHosted(trace) && AllNoCredit(answers) && (answers != [] || first)
    then TrySelfHosted
    else if ReserveLeft(s, trace) && (if answers == [] then first && !SelfHostedMayHelp(s.request)
                                      else s.request.needsCloud && NoCredit(answers[|answers| - 1]))
    then OpenReserve
    else Finish
  }

  function KeysInUse(s: Setting, trace: seq<Event>): seq<string> {
    if Took(trace) then s.reserve else s.first
  }

  predicate Carries(s: Setting, trace: seq<Event>, e: Event) {
    match NextAction(s, trace)
    case TryCloud =>
      || e == NoReservation(KeysInUse(s, trace))
      || (e.CloudCall? && e.key in KeysInUse(s, trace))
    case TrySelfHosted => e.SelfHostedCall?
    case OpenReserve => e.TakeReserve?
    case Finish => false
  }

  /** Every step is what the rule says after the ones before it. */
  predicate FollowsRule(s: Setting, trace: seq<Event>) {
    forall i :: 0 <= i < |trace| ==> Carries(s, trace[..i], trace[i])
  }

  /** The response comes from elsewhere than it would have at best: another backend, the reserve, or a later key. */
  predicate FellBack(s: Setting, trace: seq<Event>, out: Outcome) {
    || out.backend != s.initial
    || (Took(trace) && CloudAnswers(trace) != [])
    || (trace != [] && trace[|trace| - 1].CloudCall? && |CloudAnswers(trace)| > 1
        && !KeyRejected(out.answer) && out.answer.Response?)
  }

  // ---------------------------------------------------------------- one event at a time

  lemma SnocRule(s: Setting, trace: seq<Event>, e: Event)
    requires FollowsRule(s, trace) && Carries(s, trace, e)
    ensures FollowsRule(s, trace + [e])
  {
    hide Carries;
    var t := trace + [e];
    forall i | 0 <= i < |t| ensures Carries(s, t[..i], t[i]) {
      if i < |trace| {
        assert t[..i] == trace[..i] && t[i] == trace[i];
      } else {
        assert t[..i] == trace;
      }
    }
  }

  lemma SnocState(trace: seq<Event>, e: Event)
    ensures CloudAnswers(trace + [e])
         == if e.TakeReserve? then []
            else CloudAnswers(trace) + (if e.CloudCall? then [e.answer] else [])
    ensures CalledSelfHosted(trace + [e]) <==> CalledSelfHosted(trace) || e.SelfHostedCall?
    ensures Took(trace + [e]) <==> Took(trace) || e.TakeReserve?
  {
    SnocTook(trace, e);
    var t := trace + [e];
    assert t[..|trace|] == trace;
    assert t[|trace|] == e && forall i :: 0 <= i < |trace| ==> t[i] == trace[i];
  }

  /** The plan's own fields say what the trace does, and the trace follows the rule. */
  predicate Tracks(s: Setting, p: Plan) {
    && FollowsRule(s, p.trace)
    && (p.selfHostedAttempted <==> CalledSelfHosted(p.trace))
    && p.cloudKeys == KeysInUse(s, p.trace)
    && p.fallbackKeys == (if Took(p.trace) then [] else s.reserve)
  }

  lemma CloudTried(s: Setting, o: Oracle, p: Plan)
    requires Tracks(s, p) && NextAction(s, p.trace) == TryCloud
    ensures var (r, answer) := ProxyCloud(o, p);
            && Tracks(s, r) && r.cloudKeys == p.cloudKeys && |r.trace| == |p.trace| + 1
            && (Took(r.trace) <==> Took(p.trace))
            && (CalledSelfHosted(r.trace) <==> CalledSelfHosted(p.trace))
            && (if answer.None? then
                  r.trace[|p.trace|] == NoReservation(p.cloudKeys) && CloudAnswers(r.trace) == CloudAnswers(p.trace)
                else
                  && r.trace[|p.trace|].CloudCall? && r.trace[|p.trace|].answer == answer.value
                  && CloudAnswers(r.trace) == CloudAnswers(p.trace) + [answer.value])
  {
    hide FollowsRule, Took, CalledSelfHosted, CloudAnswers, NextAction;
    var (r, answer) := ProxyCloud(o, p);
    var e := r.trace[|p.trace|];
    CandidatesAreNew(o, p.cloudKeys, p.attempted);
    var candidates := Candidates(o, p.cloudKeys, p.attempted);
    assert e.CloudCall? ==> e.key in candidates;
    SnocRule(s, p.trace, e);
    SnocState(p.trace, e);
  }

  lemma SelfHostedTried(s: Setting, o: Oracle, p: Plan)
    requires Tracks(s, p) && NextAction(s, p.trace) == TrySelfHosted
    ensures var (r, answer) := ProxySelfHosted(o, p);
            && Tracks(s, r) && |r.trace| == |p.trace| + 1 && r.selfHostedAttempted
            && r.trace[|p.trace|].SelfHostedCall? && r.trace[|p.trace|].answer == answer
            && (Took(r.trace) <==> Took(p.trace)) && CloudAnswers(r.trace) == CloudAnswers(p.trace)
  {
    hide FollowsRule, Took, CalledSelfHosted, CloudAnswers, NextAction;
    var r := ProxySelfHosted(o, p).0;
    SnocRule(s, p.trace, r.trace[|p.trace|]);
    SnocState(p.trace, r.trace[|p.trace|]);
  }

  lemma ReserveOpened(s: Setting, p: Plan)
    requires Tracks(s, p) && NextAction(s, p.trace) == OpenReserve && p.fallbackKeys != []
    ensures var (r, taken) := TakeFallbackKeys(p);
            && taken && Tracks(s, r) && |r.trace| == |p.trace| + 1
            && Took(r.trace) && CloudAnswers(r.trace) == [] && NextAction(s, r.trace) == TryCloud
            && (CalledSelfHosted(r.trace) <==> CalledSelfHosted(p.trace))
  {
    hide FollowsRule, Took, CalledSelfHosted, CloudAnswers;
    SnocRule(s, p.trace, TakeReserve);
    SnocState(p.trace, TakeReserve);
  }

  // ---------------------------------------------------------------- the stages

  /** What a plan guarantees: a reserve only behind Cloud, and self-hosted first only where it may serve. */
  predicate SettingFits(s: Setting) {
    PlanFits(s.request, s.first, s.reserve, s.initial)
  }

  /** The outcome is the last answer of its backend, flagged if it is second choice. */
  predicate Holds(s: Setting, p: Plan, out: Outcome) {
    && Tracks(s, p) && p.trace != []
    && (out.fallbackUsed <==> FellBack(s, p.trace, out))
    && (match p.trace[|p.trace| - 1]
        case CloudCall(_, _, a) => out.backend == Cloud && out.answer == a && a in CloudAnswers(p.trace)
        case SelfHostedCall(a, _) => out.backend == SelfHosted && out.answer == a
        case NoReservation(_) => true
        case TakeReserve => false)
  }

  lemma DispatchFollows(s: Setting, o: Oracle, p: Plan)
    requires Tracks(s, p) && p.trace == [] && SettingFits(s)
    ensures var (r, out) := Dispatch(o, s.request, p, s.initial);
            match out
            case None => Tracks(s, r) && NextAction(s, r.trace) == Finish
            case Some(result) =>
              && Holds(s, r, result)
              && (r.trace[|r.trace| - 1].NoReservation? ==>
                    NextAction(s, r.trace) == Finish && result.backend == SelfHosted && r.fallbackKeys == [])
              && (r.trace[|r.trace| - 1].CloudCall? ==> |CloudAnswers(r.trace)| == 1)
              && (|r.trace| == 1 && r.trace[0].SelfHostedCall? ==> NextAction(s, r.trace) == Finish)
  {
    hide FollowsRule, CloudAnswers, CalledSelfHosted, Took;
    Nothing();
    if s.initial == Cloud {
      CloudTried(s, o, p);
      var (p1, attempt) := ProxyCloud(o, p);
      if attempt.None? {
        if !IsCloudQuotaFallbackAllowed(s.request.mode, s.request.needsCloud) {
          if p1.fallbackKeys != [] {
            ReserveOpened(s, p1);
            CloudTried(s, o, TakeFallbackKeys(p1).0);
          }
        } else {
          SelfHostedTried(s, o, p1);
        }
      }
    } else {
      SelfHostedTried(s, o, p);
      var (p1, answer) := ProxySelfHosted(o, p);
      if p1.cloudKeys != [] && FallbackEligible(answer) && IsFallbackAllowed(s.request.mode, s.request.privacy) {
        CloudTried(s, o, p1);
      }
    }
  }

  lemma Nothing()
    ensures CloudAnswers([]) == [] && !CalledSelfHosted([]) && !Took([])
  {
  }

  /** How many of these answers say that credit is used up. */
  function NoCreditCount(answers: seq<Answer>): nat {
    if answers == [] then 0
    else NoCreditCount(answers[..|answers| - 1]) + (if NoCredit(answers[|answers| - 1]) then 1 else 0)
  }

  lemma {:induction false} CountsAll(answers: seq<Answer>)
    ensures NoCreditCount(answers) <= |answers|
    ensures NoCreditCount(answers) == |answers| <==> AllNoCredit(answers)
  {
    if answers != [] {
      CountsAll(answers[..|answers| - 1]);
      assert answers == answers[..|answers| - 1] + [answers[|answers| - 1]];
    }
  }

  lemma CountSnoc(answers: seq<Answer>, a: Answer)
    ensures NoCreditCount(answers + [a]) == NoCreditCount(answers) + (if NoCredit(a) then 1 else 0)
  {
    assert (answers + [a])[..|answers|] == answers;
  }

  /** Where a rotation stops: at an answer to keep, or with no key left and the last answer in hand. */
  predicate Rotated(s: Setting, before: Plan, r: Plan, result: Outcome, exhausted: bool) {
    && Holds(s, r, result) && result.backend == Cloud
    && r.fallbackKeys == before.fallbackKeys && r.selfHostedAttempted == before.selfHostedAttempted
    && CloudAnswers(r.trace) != []
    && result.answer == CloudAnswers(r.trace)[|CloudAnswers(r.trace)| - 1]
    && (match r.trace[|r.trace| - 1]
        case CloudCall(_, _, _) => NextAction(s, r.trace) == Finish && !exhausted
        case NoReservation(_) => |r.trace| > 1 && (exhausted <==> AllNoCredit(CloudAnswers(r.trace)))
        case _ => false)
  }

  /** One more key: none left, an answer to keep, or one more to leave behind. */
  lemma AnotherKey(s: Setting, o: Oracle, p: Plan, out: Outcome)
    requires Holds(s, p, out) && p.trace[|p.trace| - 1].CloudCall? && NextAction(s, p.trace) == TryCloud
    requires CloudAnswers(p.trace) != []
    ensures var (p1, next) := ProxyCloud(o, p);
            var last := p1.trace[|p1.trace| - 1];
            && p1.trace != [] && p1.fallbackKeys == p.fallbackKeys && p1.selfHostedAttempted == p.selfHostedAttempted
            && (if next.None? then
                  && Holds(s, p1, out) && last.NoReservation? && |p1.trace| > 1
                  && CloudAnswers(p1.trace) == CloudAnswers(p.trace)
                else
                  var keeps := next.value.Response? && !Retryable(next.value.status);
                  && Holds(s, p1, if keeps then Outcome(Cloud, next.value, true)
                                  else out.(backend := Cloud, answer := next.value))
                  && last.CloudCall? && last.answer == next.value
                  && NextAction(s, p1.trace) == (if keeps then Finish else TryCloud)
                  && CloudAnswers(p1.trace) == CloudAnswers(p.trace) + [next.value])
  {
    hide FollowsRule, CloudAnswers, CalledSelfHosted, Took;
    CloudTried(s, o, p);
  }

  lemma {:induction false} RotateFromFollows(s: Setting, o: Oracle, p: Plan, out: Outcome, attempts: nat, quota: nat)
    requires Holds(s, p, out) && p.trace[|p.trace| - 1].CloudCall? && NextAction(s, p.trace) == TryCloud
    requires attempts == |CloudAnswers(p.trace)| && quota == NoCreditCount(CloudAnswers(p.trace))
    requires out.answer == CloudAnswers(p.trace)[|CloudAnswers(p.trace)| - 1]
    ensures var (r, result, exhausted) := RotateFrom(o, p, out, attempts, quota);
            Rotated(s, p, r, result, exhausted)
    decreases Ids(o, p.cloudKeys) - p.attempted
  {
    hide Tracks, FellBack, CloudAnswers, CalledSelfHosted, Took, AllNoCredit, NoCreditCount, Ids, ProxyCloud;
    ProxyCloudUsesNewKey(o, p);
    AnotherKey(s, o, p, out);
    var answers := CloudAnswers(p.trace);
    var (p1, next) := ProxyCloud(o, p);
    CountsAll(answers);
    if next.Some? {
      CountSnoc(answers, next.value);
      CountsAll(answers + [next.value]);
      if !(next.value.Response? && !Retryable(next.value.status)) {
        var more := quota + (if next.value.Response? && OutOfCapacity(next.value.status) then 1 else 0);
        RotateFromFollows(s, o, p1, out.(backend := Cloud, answer := next.value), attempts + 1, more);
      }
    }
  }

  lemma RotateFollows(s: Setting, o: Oracle, p: Plan, out: Outcome)
    requires Holds(s, p, out)
    requires p.trace[|p.trace| - 1].CloudCall? ==> |CloudAnswers(p.trace)| == 1
    requires p.trace[|p.trace| - 1].NoReservation? ==> out.backend == SelfHosted
    ensures var (r, result, exhausted) := Rotate(o, p, out);
            if p.trace[|p.trace| - 1].CloudCall? then Rotated(s, p, r, result, exhausted)
            else r == p && result == out && !exhausted
  {
    hide Tracks, FellBack, CloudAnswers, CalledSelfHosted, Took;
    hide RotateFrom, Rotated, NextAction, NoCreditCount, AllNoCredit;
    if p.trace[|p.trace| - 1].CloudCall? {
      FirstAnswer(s, p, out);
      if out.answer.Response? && Retryable(out.answer.status) {
        RotateFromFollows(s, o, p, out, 1, if OutOfCapacity(out.answer.status) then 1 else 0);
      }
    }
  }

  /** The first answer of the keys in use: kept, or left for another key. */
  lemma FirstAnswer(s: Setting, p: Plan, out: Outcome)
    requires Holds(s, p, out) && p.trace[|p.trace| - 1].CloudCall? && |CloudAnswers(p.trace)| == 1
    ensures CloudAnswers(p.trace) == [out.answer]
    ensures NoCreditCount(CloudAnswers(p.trace)) == if NoCredit(out.answer) then 1 else 0
    ensures if KeyRejected(out.answer) then NextAction(s, p.trace) == TryCloud else Rotated(s, p, p, out, false)
  {
    hide Tracks, FellBack, CloudAnswers, CalledSelfHosted, Took;
    CountSnoc([], out.answer);
    assert CloudAnswers(p.trace) == [] + [out.answer];
  }

  lemma FirstStep(s: Setting, trace: seq<Event>)
    requires FollowsRule(s, trace) && trace != [] && !CalledSelfHosted(trace)
    ensures s.initial == Cloud
  {
    assert Carries(s, trace[..0], trace[0]);
  }

  /** What is left to decide once rotation and self-hosted are through. */
  predicate Undecided(s: Setting, p: Plan, out: Outcome) {
    && Holds(s, p, out)
    && (match p.trace[|p.trace| - 1]
        case CloudCall(_, _, _) => NextAction(s, p.trace) == Finish
        case NoReservation(_) =>
          if out.backend == SelfHosted then NextAction(s, p.trace) == Finish && p.fallbackKeys == []
          else
            && NextAction(s, p.trace) != TrySelfHosted && |p.trace| > 1
            && CloudAnswers(p.trace) != [] && out.answer == CloudAnswers(p.trace)[|CloudAnswers(p.trace)| - 1]
        case _ => |p.trace| == 1 ==> NextAction(s, p.trace) == Finish)
  }

  lemma SelfHostedFollows(s: Setting, o: Oracle, before: Plan, p: Plan, out: Outcome, exhausted: bool)
    requires Rotated(s, before, p, out, exhausted)
    ensures var (r, result) := if exhausted then FallBackToSelfHosted(o, s.request, p, out) else (p, out);
            Undecided(s, r, result)
  {
    hide FollowsRule, CloudAnswers, CalledSelfHosted, Took;
    if exhausted && !p.selfHostedAttempted && IsCloudQuotaFallbackAllowed(s.request.mode, s.request.needsCloud) {
      FirstStep(s, p.trace);
      SelfHostedTried(s, o, p);
    }
  }

  lemma ReserveFollows(s: Setting, o: Oracle, p: Plan, out: Outcome)
    requires Undecided(s, p, out) && SettingFits(s)
    ensures var (r, result, replaced) := FallBackToFallbackKeys(o, s.request, p, out);
            && Holds(s, r, result)
            && (!replaced ==> NextAction(s, r.trace) == Finish)
            && (replaced ==>
                  && r.trace[|r.trace| - 1].CloudCall? && |CloudAnswers(r.trace)| == 1
                  && Took(r.trace) && (CalledSelfHosted(r.trace) || !SelfHostedMayHelp(s.request)))
  {
    hide FollowsRule, CloudAnswers, CalledSelfHosted, Took, AllNoCredit;
    var selfHostedFailed := out.backend == SelfHosted && FallbackEligible(out.answer)
                            && IsFallbackAllowed(s.request.mode, s.request.privacy);
    OneCallIsFirst(s, p);
    if p.fallbackKeys != [] && ((s.request.needsCloud && CloudOutOfQuota(out)) || selfHostedFailed) {
      ReserveOpened(s, p);
      CloudTried(s, o, TakeFallbackKeys(p).0);
    }
  }

  /** After a single self-hosted call it was the first choice. */
  lemma OneCallIsFirst(s: Setting, p: Plan)
    requires Tracks(s, p)
    ensures |p.trace| == 1 && p.trace[0].SelfHostedCall? ==> s.initial == SelfHosted
    ensures p.trace != [] && p.trace[|p.trace| - 1].SelfHostedCall? ==> CalledSelfHosted(p.trace)
  {
    if p.trace != [] {
      assert Carries(s, p.trace[..0], p.trace[0]);
    }
  }

  lemma HandleFollows(s: Setting, o: Oracle, p: Plan)
    requires Tracks(s, p) && p.trace == [] && SettingFits(s)
    ensures var (r, out) := Handle(o, s.request, p, s.initial);
            && FollowsRule(s, r.trace) && NextAction(s, r.trace) == Finish
            && (out.Some? ==> (out.value.fallbackUsed <==> FellBack(s, r.trace, out.value)))
  {
    hide FollowsRule, CloudAnswers, CalledSelfHosted, Took, AllNoCredit, FellBack;
    hide Dispatch, Rotate, FallBackToSelfHosted, FallBackToFallbackKeys;
    DispatchFollows(s, o, p);
    var (p1, dispatched) := Dispatch(o, s.request, p, s.initial);
    if dispatched.Some? {
      RotateFollows(s, o, p1, dispatched.value);
      var (p2, out2, exhausted) := Rotate(o, p1, dispatched.value);
      if p1.trace[|p1.trace| - 1].CloudCall? {
        SelfHostedFollows(s, o, p1, p2, out2, exhausted);
      }
      var (p3, out3) := if exhausted then FallBackToSelfHosted(o, s.request, p2, out2) else (p2, out2);
      ReserveFollows(s, o, p3, out3);
      var (p4, out4, replaced) := FallBackToFallbackKeys(o, s.request, p3, out3);
      if replaced {
        RotateFollows(s, o, p4, out4);
      }
    }
  }

  // ---------------------------------------------------------------- main results

  function SettingOf(q: Request, planned: Planned): Setting
    requires planned.Planned?
  {
    Setting(q, planned.cloudKeys, planned.fallbackKeys, planned.initial)
  }

  /**
    Main result 1, for every oracle of reservations and upstream answers: each
    step of a request is the one the rule asks for after the steps before it, the
    request ends exactly where the rule says so, and the response is flagged as a
    fallback exactly when it is second choice.
   */
  lemma RouteFollowsRule(o: Oracle, q: Request, entries: seq<KeyEntry>)
    requires BuildPlan(q, entries).Planned?
    ensures var s := SettingOf(q, BuildPlan(q, entries));
            var (trace, out) := Route(o, q, entries);
            && FollowsRule(s, trace) && NextAction(s, trace) == Finish
            && (out.Some? ==> (out.value.fallbackUsed <==> FellBack(s, trace, out.value)))
  {
    hide Handle;
    StartFits(o, q, entries);
    var planned := BuildPlan(q, entries);
    Nothing();
    HandleFollows(SettingOf(q, planned), o, StartPlan(planned));
  }

  /**
    Main result 2: a request that ends with a 401, 402, 403 or 429 from Cloud has
    nothing left to try, as the last thing it did was to find no key of the pool in
    use reservable.
   */
  lemma RejectionsEndWithoutKeys(o: Oracle, q: Request, entries: seq<KeyEntry>)
    ensures var (trace, out) := Route(o, q, entries);
            out.Some? && out.value.backend == Cloud && out.value.answer.Response?
              && out.value.answer.status in {401, 402, 403, 429} ==>
            && BuildPlan(q, entries).Planned? && trace != []
            && trace[|trace| - 1] == NoReservation(KeysInUse(SettingOf(q, BuildPlan(q, entries)), trace))
  {
    hide Route, BuildPlan, FollowsRule, CloudAnswers, CalledSelfHosted, Took;
    var (trace, out) := Route(o, q, entries);
    RefusedWithoutCalls(o, q, entries);
    if out.Some? {
      var s := SettingOf(q, BuildPlan(q, entries));
      RouteFollowsRule(o, q, entries);
      BoundedSearch(o, q, entries);
      LastOfRule(s, trace);
    }
  }

  lemma RefusedWithoutCalls(o: Oracle, q: Request, entries: seq<KeyEntry>)
    ensures Route(o, q, entries).1.Some? ==> BuildPlan(q, entries).Planned?
  {
  }

  lemma LastOfRule(s: Setting, trace: seq<Event>)
    requires FollowsRule(s, trace) && trace != []
    ensures var last := trace[|trace| - 1];
            && (last.NoReservation? ==> last == NoReservation(KeysInUse(s, trace)))
            && (IsCall(last) ==> LastCall(trace) == Some(last))
  {
    hide Took, NextAction;
    var front, last := trace[..|trace| - 1], trace[|trace| - 1];
    assert trace == front + [last];
    SnocTook(front, last);
    assert Carries(s, front, last);
  }

  /**
    Main result 3: an answer from Cloud with any other status is the last thing a request asks for,
    and its response.
   */
  lemma OtherAnswersAreKept(o: Oracle, q: Request, entries: seq<KeyEntry>, i: nat)
    requires var trace := Route(o, q, entries).0;
             && i < |trace| && trace[i].CloudCall? && trace[i].answer.Response?
             && trace[i].answer.status !in {401, 402, 403, 429}
    ensures var (trace, out) := Route(o, q, entries);
            i == |trace| - 1 && out.Some? && out.value.backend == Cloud && out.value.answer == trace[i].answer
  {
    hide Route, BuildPlan, FollowsRule, CloudAnswers, CalledSelfHosted, Took;
    var (trace, out) := Route(o, q, entries);
    PlannedIfCalled(o, q, entries);
    var s := SettingOf(q, BuildPlan(q, entries));
    RouteFollowsRule(o, q, entries);
    BoundedSearch(o, q, entries);
    if i + 1 < |trace| {
      FinishIsFinal(s, trace, i + 1);
    }
    LastOfRule(s, trace);
  }

  lemma PlannedIfCalled(o: Oracle, q: Request, entries: seq<KeyEntry>)
    ensures Route(o, q, entries).0 != [] ==> BuildPlan(q, entries).Planned?
  {
  }

  lemma FinishIsFinal(s: Setting, trace: seq<Event>, i: nat)
    requires FollowsRule(s, trace) && i < |trace|
    ensures NextAction(s, trace[..i]) != Finish
    ensures i > 0 ==> trace[..i][i - 1] == trace[i - 1]
  {
    assert Carries(s, trace[..i], trace[i]);
  }

  // ---------------------------------------------------------------- the plan

  /** The keys of a role are those of its entries, in their order. */
  lemma {:induction false} RolesSplit(front: seq<KeyEntry>, last: KeyEntry, role: Role)
    ensures KeysWithRole([], role) == []
    ensures KeysWithRole(front + [last], role)
         == KeysWithRole(front, role) + (if last.role == role then [last.key] else [])
  {
    if front == [] {
      assert [] + [last] == [last];
    } else {
      assert (front + [last])[0] == front[0] && (front + [last])[1..] == front[1..] + [last];
      RolesSplit(front[1..], last, role);
    }
  }

  /**
    Main result 4: a request that is not refused starts on Cloud where its mode or
    its needs say so, hybrid only with a cloud-role key; it may use all keys, or in
    hybrid those of one role with the others held back; and it loads none where
    Cloud is out of the question.
   */
  lemma PlansExactly(q: Request, entries: seq<KeyEntry>)
    ensures var planned := BuildPlan(q, entries);
            var own, reserve := KeysWithRole(entries, CloudRole), KeysWithRole(entries, FallbackRole);
            planned.Planned? ==>
              && (planned.initial == Cloud <==>
                    q.needsCloud || q.mode == CloudFirst || q.mode == CloudOnly || (q.mode == Hybrid && own != []))
              && planned.cloudKeys
                   == (if q.mode == Hybrid then (if own != [] then own else reserve)
                       else if planned.initial == Cloud || CloudMayHelp(q) then AllKeys(entries)
                       else [])
              && planned.fallbackKeys == (if q.mode == Hybrid && own != [] then reserve else [])
    ensures |AllKeys(entries)| == |entries|
    ensures forall i :: 0 <= i < |entries| ==> AllKeys(entries)[i] == entries[i].key
  {
  }
}
