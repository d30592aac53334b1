/** `CircuitBreaker` in the source's own form: fields updated by `acquire`, `release` and `open`. */
module CircuitBreaker {
  import opened Common
  import opened BreakerSpec

  class CircuitBreaker {
    const options: Options
    var state: State
    var consecutiveFailures: nat
    var openedAt: int
    var probeInFlight: bool
    var generation: nat
    /** The state changes reported to `onTransition`, in order. */
    var transitions: seq<(State, State)>

    function Fields(): Breaker
      reads this
    {
      Breaker(state, consecutiveFailures, openedAt, probeInFlight, generation)
    }

    constructor (options: Options)
      ensures Fields() == FRESH && this.options == options && transitions == []
    {
      this.options := options;
      state, consecutiveFailures, openedAt, probeInFlight, generation := Closed, 0, 0, false, 0;
      transitions := [];
    }

    /** `acquire`; None means reject. */
    method Acquire(now: int) returns (permit: Option<Permit>)
      modifies this
      ensures (Fields(), permit) == BreakerSpec.Acquire(options, old(Fields()), now)
      ensures Reported(old(state), old(transitions))
    {
      if state == Closed {
        return Some(Permit(ClosedPermit, generation));
      }
      if state == OpenState {
        if now - openedAt < options.cooldownMs {
          return None;
        }
        Transition(HalfOpen);
      }
      if probeInFlight {
        return None;
      }
      probeInFlight := true;
      return Some(Permit(ProbePermit, generation));
    }

    method Release(permit: Permit, failed: bool, now: int)
      modifies this
      ensures Fields() == BreakerSpec.Release(options, old(Fields()), permit, failed, now)
      ensures Reported(old(state), old(transitions))
    {
      if permit.kind == ProbePermit {
        probeInFlight := false;
        if failed {
          Open(now);
        } else {
          consecutiveFailures := 0;
          Transition(Closed);
        }
        return;
      }
      if permit.generation != generation || state != Closed {
        return;
      }
      if !failed {
        consecutiveFailures := 0;
        return;
      }
      consecutiveFailures := consecutiveFailures + 1;
      if consecutiveFailures >= options.failureThreshold {
        Open(now);
      }
    }

    method Open(now: int)
      modifies this
      ensures Fields() == Trip(old(Fields()), now)
      ensures Reported(old(state), old(transitions))
    {
      generation := generation + 1;
      openedAt := now;
      Transition(OpenState);
    }

    method Transition(to: State)
      modifies this`state, this`transitions
      ensures state == to && Reported(old(state), old(transitions))
    {
      var from := state;
      if from == to {
        return;
      }
      state := to;
      transitions := transitions + [(from, to)];
    }

    /** The log grew by exactly the change from `before` to the current state, and by nothing without one. */
    predicate Reported(before: State, log: seq<(State, State)>)
      reads this
    {
      transitions == if state == before then log else log + [(before, state)]
    }
  }
}
