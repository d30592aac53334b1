/**
  The self-hosted circuit breaker with any number of calls outstanding: the
  effect of admitting and completing one call, and what every run guarantees.
 */
module BreakerSpec {
  import opened Common

  datatype State = Closed | OpenState | HalfOpen

  datatype Kind = ClosedPermit | ProbePermit

  /** `generation` is that of the breaker when it let the call in. */
  datatype Permit = Permit(kind: Kind, generation: nat)

  datatype Breaker = Breaker(
    state: State,
    consecutiveFailures: nat,
    openedAt: int,
    probeInFlight: bool,
    generation: nat)

  datatype Options = Options(failureThreshold: nat, cooldownMs: int)

  const FRESH := Breaker(Closed, 0, 0, false, 0)

  /** `acquire`: None is a rejected call. */
  function Acquire(o: Options, b: Breaker, now: int): (Breaker, Option<Permit>) {
    match b.state
    case Closed => (b, Some(Permit(ClosedPermit, b.generation)))
    case OpenState =>
      if now - b.openedAt < o.cooldownMs then (b, None) else Probe(b.(state := HalfOpen))
    case HalfOpen => Probe(b)
  }

  /** Half-open lets a call through while no other one is out. */
  function Probe(b: Breaker): (Breaker, Option<Permit>) {
    if b.probeInFlight then (b, None)
    else (b.(probeInFlight := true), Some(Permit(ProbePermit, b.generation)))
  }

  function Trip(b: Breaker, now: int): Breaker {
    b.(generation := b.generation + 1, openedAt := now, state := OpenState)
  }

  /** `release`. */
  function Release(o: Options, b: Breaker, permit: Permit, failed: bool, now: int): Breaker {
    if permit.kind == ProbePermit then
      var c := b.(probeInFlight := false);
      if failed then Trip(c, now) else c.(consecutiveFailures := 0, state := Closed)
    else if permit.generation != b.generation || b.state != Closed then b
    else if !failed then b.(consecutiveFailures := 0)
    else
      var c := b.(consecutiveFailures := b.consecutiveFailures + 1);
      if c.consecutiveFailures >= o.failureThreshold then Trip(c, now) else c
  }

  // ---------------------------------------------------------------- runs

  type CallId = nat

  datatype Event =
    | Admit(id: CallId, now: int)
    | Complete(id: CallId, failed: bool, now: int)

  /**
    One run's bookkeeping beside the breaker: the outstanding calls with the
    position of the event that admitted them, the calls ever made, how many
    events there were, the positions and time of the last opening and closing,
    and the outcomes of the calls admitted and completed since the last closing.
   */
  datatype Call = Call(permit: Permit, admittedAt: nat)

  datatype World = World(
    breaker: Breaker,
    calls: map<CallId, Call>,
    made: set<CallId>,
    events: nat,
    openings: nat,
    lastOpening: nat,
    lastOpeningTime: int,
    lastClosing: nat,
    outcomes: seq<bool>)

  const START := World(FRESH, map[], {}, 1, 0, 0, 0, 0, [])

  predicate Possible(w: World, e: Event) {
    match e
    case Admit(id, _) => id !in w.made
    case Complete(id, _, _) => id in w.calls
  }

  function Next(o: Options, w: World, e: Event): World
    requires Possible(w, e)
  {
    match e
    case Admit(id, now) =>
      var (b, permit) := Acquire(o, w.breaker, now);
      w.(breaker := b,
         calls := if permit.Some? then w.calls[id := Call(permit.value, w.events)] else w.calls,
         made := w.made + {id},
         events := w.events + 1)
    case Complete(id, failed, now) =>
      var call := w.calls[id];
      var b := Release(o, w.breaker, call.permit, failed, now);
      var opens := b.state == OpenState && w.breaker.state != OpenState;
      var closes := b.state == Closed && w.breaker.state != Closed;
      World(b, w.calls - {id}, w.made, w.events + 1,
            if opens then w.openings + 1 else w.openings,
            if opens then w.events else w.lastOpening,
            if opens then now else w.lastOpeningTime,
            if closes then w.events else w.lastClosing,
            if closes then [] else if call.admittedAt > w.lastClosing then w.outcomes + [failed] else w.outcomes)
  }

  predicate IsRun(o: Options, w: World, events: seq<Event>)
    decreases |events|
  {
    events == [] || (Possible(w, events[0]) && IsRun(o, Next(o, w, events[0]), events[1..]))
  }

  function Run(o: Options, w: World, events: seq<Event>): World
    requires IsRun(o, w, events)
    decreases |events|
  {
    if events == [] then w else Run(o, Next(o, w, events[0]), events[1..])
  }

  /** The number of failures at the end. */
  function FailingSuffix(outcomes: seq<bool>): nat {
    if outcomes == [] || !outcomes[|outcomes| - 1] then 0
    else 1 + FailingSuffix(outcomes[..|outcomes| - 1])
  }

  predicate IsProbe(w: World, id: CallId) {
    id in w.calls && w.calls[id].permit.kind == ProbePermit
  }

  /**
    A permit is of the current generation exactly when its call was admitted
    after the last opening. A current closed permit exists only while the breaker
    is closed and was then admitted after the last closing; a probe only while
    half-open.
   */
  predicate CallFits(w: World, call: Call) {
    && call.admittedAt < w.events
    && call.permit.generation <= w.openings
    && (call.permit.generation == w.openings <==> call.admittedAt > w.lastOpening)
    && (call.permit.kind == ClosedPermit && call.permit.generation == w.openings ==>
          w.breaker.state == Closed && call.admittedAt > w.lastClosing)
    && (call.permit.kind == ProbePermit ==> call.permit.generation == w.openings && w.breaker.state == HalfOpen)
  }

  predicate CallsFit(w: World) {
    forall id :: id in w.calls ==> CallFits(w, w.calls[id])
  }

  /** Half-open exactly while one probe is outstanding, and never two. */
  ghost predicate OneProbe(w: World) {
    && (w.breaker.state == HalfOpen <==> exists id :: IsProbe(w, id))
    && (forall id, other :: IsProbe(w, id) && IsProbe(w, other) ==> id == other)
  }

  predicate CountersFit(o: Options, w: World) {
    var b := w.breaker;
    && w.lastOpening < w.events && w.lastClosing < w.events
    && b.generation == w.openings
    && (b.state == Closed <==> w.lastOpening <= w.lastClosing)
    && (b.state != Closed ==> w.openings > 0 && b.openedAt == w.lastOpeningTime)
    && (b.probeInFlight <==> b.state == HalfOpen)
    && w.calls.Keys <= w.made
    && (b.state == Closed ==> b.consecutiveFailures == FailingSuffix(w.outcomes) < o.failureThreshold)
  }

  ghost predicate Inv(o: Options, w: World) {
    CountersFit(o, w) && CallsFit(w) && OneProbe(w)
  }
}
