/** What every run of the circuit breaker guarantees, with overlapping calls and stale permits. */
module BreakerProofs {
  import opened BreakerSpec

  lemma AdmitKeepsProbe(o: Options, w: World, id: CallId, now: int)
    requires Inv(o, w) && Possible(w, Admit(id, now))
    ensures OneProbe(Next(o, w, Admit(id, now)))
  {
    var v := Next(o, w, Admit(id, now));
    if w.breaker.state == HalfOpen {
      var probe :| IsProbe(w, probe);
      assert IsProbe(v, probe);
      assert forall other :: IsProbe(v, other) ==> IsProbe(w, other);
    } else {
      assert forall other :: !IsProbe(w, other);
      if v.breaker.state == HalfOpen {
        assert IsProbe(v, id);
      }
    }
  }

  lemma AdmitKeepsInv(o: Options, w: World, id: CallId, now: int)
    requires Inv(o, w) && Possible(w, Admit(id, now))
    ensures Inv(o, Next(o, w, Admit(id, now)))
  {
    AdmitKeepsProbe(o, w, id, now);
  }

  lemma CompleteKeepsProbe(o: Options, w: World, id: CallId, failed: bool, now: int)
    requires o.failureThreshold > 0 && Inv(o, w) && Possible(w, Complete(id, failed, now))
    ensures OneProbe(Next(o, w, Complete(id, failed, now)))
  {
    var v := Next(o, w, Complete(id, failed, now));
    if w.calls[id].permit.kind == ProbePermit {
      assert IsProbe(w, id);
      assert forall other :: IsProbe(v, other) ==> IsProbe(w, other);
      assert !IsProbe(v, id);
    } else {
      assert forall other :: IsProbe(v, other) <==> IsProbe(w, other);
    }
  }

  lemma CompleteKeepsCounters(o: Options, w: World, id: CallId, failed: bool, now: int)
    requires o.failureThreshold > 0 && Inv(o, w) && Possible(w, Complete(id, failed, now))
    ensures CountersFit(o, Next(o, w, Complete(id, failed, now)))
  {
    assert CallFits(w, w.calls[id]);
    assert (w.outcomes + [failed])[..|w.outcomes|] == w.outcomes;
  }

  lemma CompleteKeepsCalls(o: Options, w: World, id: CallId, failed: bool, now: int)
    requires o.failureThreshold > 0 && Inv(o, w) && Possible(w, Complete(id, failed, now))
    ensures CallsFit(Next(o, w, Complete(id, failed, now)))
  {
    var v := Next(o, w, Complete(id, failed, now));
    forall other | other in v.calls ensures CallFits(v, v.calls[other]) {
      assert CallFits(w, w.calls[other]) && CallFits(w, w.calls[id]);
      if w.calls[id].permit.kind == ProbePermit && w.calls[other].permit.kind == ProbePermit {
        assert IsProbe(w, id) && IsProbe(w, other);
        assert false;
      }
    }
  }

  lemma CompleteKeepsInv(o: Options, w: World, id: CallId, failed: bool, now: int)
    requires o.failureThreshold > 0 && Inv(o, w) && Possible(w, Complete(id, failed, now))
    ensures Inv(o, Next(o, w, Complete(id, failed, now)))
  {
    CompleteKeepsProbe(o, w, id, failed, now);
    CompleteKeepsCounters(o, w, id, failed, now);
    CompleteKeepsCalls(o, w, id, failed, now);
  }

  lemma StepKeepsInv(o: Options, w: World, e: Event)
    requires o.failureThreshold > 0 && Inv(o, w) && Possible(w, e)
    ensures Inv(o, Next(o, w, e))
  {
    match e {
      case Admit(id, now) => AdmitKeepsInv(o, w, id, now);
      case Complete(id, failed, now) => CompleteKeepsInv(o, w, id, failed, now);
    }
  }

  lemma StartSatisfiesInv(o: Options)
    requires o.failureThreshold > 0
    ensures Inv(o, START)
  {
  }

  lemma {:induction false} RunKeepsInv(o: Options, w: World, events: seq<Event>)
    requires o.failureThreshold > 0 && Inv(o, w) && IsRun(o, w, events)
    ensures Inv(o, Run(o, w, events))
    decreases |events|
  {
    if events != [] {
      StepKeepsInv(o, w, events[0]);
      RunKeepsInv(o, Next(o, w, events[0]), events[1..]);
    }
  }

  /**
    Main result 1, for every run: half-open exactly when one probe is
    outstanding, never two; and while closed the failure count is the length of
    the failing suffix of the outcomes of calls admitted and completed since the
    last closing, below the threshold.
   */
  lemma RunGuarantees(o: Options, events: seq<Event>)
    requires o.failureThreshold > 0 && IsRun(o, START, events)
    ensures var w := Run(o, START, events);
            && OneProbe(w)
            && (w.breaker.state == Closed ==>
                  w.breaker.consecutiveFailures == FailingSuffix(w.outcomes) < o.failureThreshold)
  {
    StartSatisfiesInv(o);
    RunKeepsInv(o, START, events);
  }

  /**
    Main result 2: a call admitted while the breaker is not closed starts at least the cooldown
    after the last opening.
   */
  lemma ProbesWaitForCooldown(o: Options, events: seq<Event>, id: CallId, now: int)
    requires o.failureThreshold > 0 && IsRun(o, START, events)
    requires Possible(Run(o, START, events), Admit(id, now))
    ensures var w := Run(o, START, events);
            var v := Next(o, w, Admit(id, now));
            w.breaker.state != Closed && id in v.calls ==>
              now - w.lastOpeningTime >= o.cooldownMs && v.calls[id].permit.kind == ProbePermit
  {
    StartSatisfiesInv(o);
    RunKeepsInv(o, START, events);
  }

  /**
    Main result 3, at every point of every run. A call is let in exactly when the
    breaker is closed, or no probe is out and the cooldown since the last opening
    is over. The breaker opens exactly when a probe fails, or when a call that was
    let in since the last opening completes the threshold of failures in a row; it
    closes exactly when a probe succeeds.
   */
  lemma DecidesExactly(o: Options, events: seq<Event>, e: Event)
    requires o.failureThreshold > 0 && IsRun(o, START, events) && Possible(Run(o, START, events), e)
    ensures var w := Run(o, START, events);
            var v := Next(o, w, e);
            match e
            case Admit(id, now) =>
              && (id in v.calls <==>
                    || w.breaker.state == Closed
                    || ((forall other :: !IsProbe(w, other)) && now - w.lastOpeningTime >= o.cooldownMs))
              && (v.breaker.state == w.breaker.state
                  || (w.breaker.state == OpenState && v.breaker.state == HalfOpen && IsProbe(v, id)))
            case Complete(id, failed, now) =>
              var counts := w.breaker.state == Closed && w.calls[id].admittedAt > w.lastOpening;
              var reaches := counts && FailingSuffix(w.outcomes) + 1 >= o.failureThreshold;
              var opens := failed && (IsProbe(w, id) || reaches);
              && v.breaker.state == (if opens then OpenState
                                     else if IsProbe(w, id) then Closed
                                     else w.breaker.state)
              && (opens ==> v.lastOpeningTime == now && v.lastOpening == w.events)
  {
    StartSatisfiesInv(o);
    RunKeepsInv(o, START, events);
    var w := Run(o, START, events);
    if e.Complete? {
      assert CallFits(w, w.calls[e.id]);
    }
  }

  // ---------------------------------------------------------------- non-interference

  /** A completion of a call that was admitted before the last opening. */
  predicate IsStale(w: World, e: Event)
    requires Possible(w, e)
  {
    e.Complete? && w.calls[e.id].admittedAt < w.lastOpening
  }

  /** The run without its stale completions. */
  function WithoutStale(o: Options, w: World, events: seq<Event>): seq<Event>
    requires IsRun(o, w, events)
    decreases |events|
  {
    if events == [] then []
    else
      var rest := WithoutStale(o, Next(o, w, events[0]), events[1..]);
      if IsStale(w, events[0]) then rest else [events[0]] + rest
  }

  /**
    `v` is `w` with perhaps more outstanding calls, all of them closed permits of
    older generations. Positions in the two runs differ; permits and breaker do not.
   */
  predicate Shadows(w: World, v: World) {
    && v.breaker == w.breaker && v.made == w.made
    && (forall id :: id in w.calls ==> id in v.calls && v.calls[id].permit == w.calls[id].permit)
    && (forall id :: id in v.calls && id !in w.calls ==> Outdated(v.breaker, v.calls[id].permit))
  }

  predicate Outdated(b: Breaker, permit: Permit) {
    permit.kind == ClosedPermit && permit.generation < b.generation
  }

  lemma StaleChangesNothing(o: Options, w: World, e: Event)
    requires Inv(o, w) && Possible(w, e) && IsStale(w, e)
    ensures Next(o, w, e).breaker == w.breaker && Outdated(w.breaker, w.calls[e.id].permit)
  {
    assert CallFits(w, w.calls[e.id]);
  }

  lemma ShadowsStep(o: Options, w: World, v: World, e: Event)
    requires Inv(o, w) && Possible(w, e) && Shadows(w, v)
    ensures if IsStale(w, e) then Shadows(Next(o, w, e), v)
            else Possible(v, e) && Shadows(Next(o, w, e), Next(o, v, e))
  {
    if IsStale(w, e) {
      StaleChangesNothing(o, w, e);
    }
  }

  lemma {:induction false} ShadowsRun(o: Options, w: World, v: World, events: seq<Event>)
    requires o.failureThreshold > 0 && Inv(o, w) && IsRun(o, w, events) && Shadows(w, v)
    ensures IsRun(o, v, WithoutStale(o, w, events))
    ensures Run(o, v, WithoutStale(o, w, events)).breaker == Run(o, w, events).breaker
    decreases |events|
  {
    if events != [] {
      var next := Next(o, w, events[0]);
      StepKeepsInv(o, w, events[0]);
      ShadowsStep(o, w, v, events[0]);
      var rest := WithoutStale(o, next, events[1..]);
      if IsStale(w, events[0]) {
        ShadowsRun(o, next, v, events[1..]);
      } else {
        ShadowsRun(o, next, Next(o, v, events[0]), events[1..]);
        assert ([events[0]] + rest)[0] == events[0] && ([events[0]] + rest)[1..] == rest;
      }
    }
  }

  /**
    Main result 4: calls admitted before an opening have no say after it. Leaving
    out, anywhere in a run, the completions of calls admitted before the opening
    that was the latest at that moment leaves a possible run with the same breaker.
   */
  lemma StaleCompletionsDoNotInterfere(o: Options, events: seq<Event>)
    requires o.failureThreshold > 0 && IsRun(o, START, events)
    ensures IsRun(o, START, WithoutStale(o, START, events))
    ensures Run(o, START, WithoutStale(o, START, events)).breaker == Run(o, START, events).breaker
  {
    StartSatisfiesInv(o);
    ShadowsRun(o, START, START, events);
  }
}
