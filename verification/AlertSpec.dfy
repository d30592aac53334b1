/** The alert rules over whole runs of evaluations, and what an audience reads. */
module AlertSpec {
  import opened Common

  const REMINDER_MS := 3_600_000
  const RESOLVE_AFTER_CLEAN_CHECKS := 3
  const FALLBACK_MIN_REQUESTS := 20

  datatype Rule = CreditsLow | FallbackRate | CircuitOpen

  datatype RuleState = RuleState(firing: bool, lastNotifiedAt: int, cleanChecks: nat)

  datatype Kind = Alert | StillFiring | Resolved

  datatype Settings = Settings(botToken: string, chatId: string, creditsThreshold: int, ratioThreshold: int)

  /**
    What one evaluation observes; requests and fallbacks are those of the last
    ten minutes, and `quotient` is the double that `(fallbacks / total) * 100` gives.
   */
  datatype Signals = Signals(keys: nat, credits: int, total: nat, fallbacks: nat, quotient: real, circuitClosed: bool)

  datatype Loaded = LoadFailed | NotConfigured | Configured(settings: Settings)

  /**
    How a send ends: with the answer that the message arrived, arrived but without that answer in
    time, or not at all.
   */
  datatype Delivery = Acknowledged | AnswerLost | Undelivered

  /** One evaluation: `deliver` says how a send of the rule would end. */
  datatype Evaluation = Evaluation(load: Loaded, signals: Signals, deliver: Rule -> Delivery, now: int)

  /** A message that arrived; the service knows that it did only if it was acknowledged. */
  datatype Message = Message(rule: Rule, kind: Kind, at: int, acknowledged: bool)

  /** One check of a rule and the message it tried to send, if any. */
  datatype Checked = Checked(active: bool, attempt: Option<Kind>, delivery: Delivery, at: int)

  /** `history` holds each rule's checks since its state was last forgotten; `arrived` every message that ever did. */
  datatype Alerts = Alerts(
    states: map<Rule, RuleState>,
    destination: string,
    history: map<Rule, seq<Checked>>,
    arrived: seq<Message>)

  // ---------------------------------------------------------------- the rules

  function Destination(s: Settings): string {
    s.chatId + "\n" + s.botToken
  }

  /** `Math.round` of the fallback percentage: halves go up. */
  function Percent(s: Signals): int {
    if s.total > 0 then (s.quotient + 0.5).Floor else 0
  }

  predicate EnabledRule(s: Settings, rule: Rule) {
    match rule
    case CreditsLow => s.creditsThreshold > 0
    case FallbackRate => s.ratioThreshold > 0
    case CircuitOpen => true
  }

  predicate Active(s: Settings, signals: Signals, rule: Rule) {
    match rule
    case CreditsLow => signals.keys > 0 && signals.credits < s.creditsThreshold
    case FallbackRate => signals.total >= FALLBACK_MIN_REQUESTS && Percent(signals) >= s.ratioThreshold
    case CircuitOpen => !signals.circuitClosed
  }

  /** The rules checked, in the order of `collectChecks`. */
  function Rules(s: Settings): seq<Rule> {
    (if EnabledRule(s, CreditsLow) then [CreditsLow] else [])
      + (if EnabledRule(s, FallbackRate) then [FallbackRate] else [])
      + [CircuitOpen]
  }

  // ---------------------------------------------------------------- one rule

  function StateOf(a: Alerts, rule: Rule): RuleState {
    if rule in a.states then a.states[rule] else RuleState(false, 0, 0)
  }

  function HistoryOf(a: Alerts, rule: Rule): seq<Checked> {
    if rule in a.history then a.history[rule] else []
  }

  /** `apply`: the message it tries to send, and the state after the check. */
  function ApplyRule(state: RuleState, active: bool, delivery: Delivery, now: int): (RuleState, Option<Kind>) {
    if active then
      var s := state.(cleanChecks := 0);
      if !s.firing then
        (if delivery.Acknowledged? then s.(firing := true, lastNotifiedAt := now) else s, Some(Alert))
      else if now - s.lastNotifiedAt >= REMINDER_MS then
        (if delivery.Acknowledged? then s.(lastNotifiedAt := now) else s, Some(StillFiring))
      else (s, None)
    else if !state.firing then (state, None)
    else
      var s := state.(cleanChecks := state.cleanChecks + 1);
      if s.cleanChecks < RESOLVE_AFTER_CLEAN_CHECKS then (s, None)
      else (if delivery.Acknowledged? then s.(firing := false, cleanChecks := 0) else s, Some(Resolved))
  }

  /** The message a check got through, if any. */
  function Arrival(rule: Rule, c: Checked): seq<Message> {
    if c.attempt.Some? && !c.delivery.Undelivered?
    then [Message(rule, c.attempt.value, c.at, c.delivery.Acknowledged?)] else []
  }

  function Apply(a: Alerts, rule: Rule, active: bool, delivery: Delivery, now: int): Alerts {
    var (state, attempt) := ApplyRule(StateOf(a, rule), active, delivery, now);
    var c := Checked(active, attempt, delivery, now);
    a.(states := a.states[rule := state],
       history := a.history[rule := HistoryOf(a, rule) + [c]],
       arrived := a.arrived + Arrival(rule, c))
  }

  function ApplyAll(a: Alerts, rules: seq<Rule>, s: Settings, e: Evaluation): Alerts
    decreases |rules|
  {
    if rules == [] then a
    else
      ApplyAll(Apply(a, rules[0], Active(s, e.signals, rules[0]), e.deliver(rules[0]), e.now), rules[1..], s, e)
  }

  function Forget(a: Alerts): Alerts {
    a.(states := map[], history := map[])
  }

  /** A rule that is not checked any more forgets its incident. */
  function KeepRules(a: Alerts, rules: seq<Rule>): Alerts {
    a.(states := map r | r in a.states && r in rules :: a.states[r],
       history := map r | r in a.history && r in rules :: a.history[r])
  }

  /** `evaluate`. */
  function Evaluate(a: Alerts, e: Evaluation): Alerts {
    match e.load
    case LoadFailed => a
    case NotConfigured => Forget(a).(destination := "")
    case Configured(s) =>
      var a1 := if Destination(s) != a.destination then Forget(a).(destination := Destination(s)) else a;
      ApplyAll(KeepRules(a1, Rules(s)), Rules(s), s, e)
  }

  function Run(a: Alerts, run: seq<Evaluation>): Alerts {
    if run == [] then a else Evaluate(Run(a, run[..|run| - 1]), run[|run| - 1])
  }

  const FRESH := Alerts(map[], "", map[], [])
}
