/**
  What an audience reads: incidents that open, repeat at most hourly, close only after three clean
  checks, and what lost answers add.
 */
module AlertProofs {
  import opened Common
  import opened AlertSpec

  // ---------------------------------------------------------------- the reference: histories only

  /** The message a check delivered to the service's knowledge. */
  function Confirmed(c: Checked): Option<Kind> {
    if c.delivery.Acknowledged? then c.attempt else None
  }

  /** The confirmed messages of a history. */
  function Kinds(h: seq<Checked>): seq<Kind> {
    if h == [] then []
    else Kinds(h[..|h| - 1]) + (if Confirmed(h[|h| - 1]).Some? then [Confirmed(h[|h| - 1]).value] else [])
  }

  /** An incident is open when the last message is not a resolution. */
  predicate Open(kinds: seq<Kind>) {
    kinds != [] && kinds[|kinds| - 1] != Resolved
  }

  function LastMessageAt(h: seq<Checked>): int {
    if h == [] then 0
    else if Confirmed(h[|h| - 1]).Some? then h[|h| - 1].at
    else LastMessageAt(h[..|h| - 1])
  }

  /** The number of clean checks at the end. */
  function CleanSuffix(h: seq<Checked>): nat {
    if h == [] || h[|h| - 1].active then 0 else 1 + CleanSuffix(h[..|h| - 1])
  }

  /** The message due at a check, from what was checked and confirmed before. */
  function Due(h: seq<Checked>, active: bool, now: int): Option<Kind> {
    if active then
      if !Open(Kinds(h)) then Some(Alert)
      else if now - LastMessageAt(h) >= 3_600_000 then Some(StillFiring) else None
    else if Open(Kinds(h)) && CleanSuffix(h) >= 2 then Some(Resolved)
    else None
  }

  /** Every check tried to send the message due, and no other. */
  ghost predicate Conforms(h: seq<Checked>) {
    forall i :: 0 <= i < |h| ==> h[i].attempt == Due(h[..i], h[i].active, h[i].at)
  }

  // ---------------------------------------------------------------- the state refines the reference

  predicate Reflects(state: RuleState, h: seq<Checked>) {
    && state.firing == Open(Kinds(h))
    && (state.firing ==> state.lastNotifiedAt == LastMessageAt(h) && state.cleanChecks == CleanSuffix(h))
    && (!state.firing ==> state.cleanChecks == 0)
  }

  lemma Snoc(h: seq<Checked>, c: Checked)
    ensures Kinds(h + [c]) == Kinds(h) + (if Confirmed(c).Some? then [Confirmed(c).value] else [])
    ensures LastMessageAt(h + [c]) == if Confirmed(c).Some? then c.at else LastMessageAt(h)
    ensures CleanSuffix(h + [c]) == if c.active then 0 else 1 + CleanSuffix(h)
  {
    assert (h + [c])[..|h|] == h;
  }

  lemma ConformsSnoc(h: seq<Checked>, c: Checked)
    requires Conforms(h) && c.attempt == Due(h, c.active, c.at)
    ensures Conforms(h + [c])
  {
    var h1 := h + [c];
    assert h1[..|h|] == h;
    forall i | 0 <= i < |h1| ensures h1[i].attempt == Due(h1[..i], h1[i].active, h1[i].at) {
      if i < |h| {
        assert h1[..i] == h[..i] && h1[i] == h[i];
      }
    }
  }

  /** One check tries to send exactly what the history calls for. */
  lemma CheckSendsWhatIsDue(state: RuleState, h: seq<Checked>, active: bool, delivery: Delivery, now: int)
    requires Reflects(state, h)
    ensures var (state1, attempt) := ApplyRule(state, active, delivery, now);
            attempt == Due(h, active, now) && Reflects(state1, h + [Checked(active, attempt, delivery, now)])
  {
    var (state1, attempt) := ApplyRule(state, active, delivery, now);
    Snoc(h, Checked(active, attempt, delivery, now));
  }

  ghost predicate Inv(a: Alerts) {
    && a.states.Keys == a.history.Keys
    && forall rule :: rule in a.states ==> Reflects(a.states[rule], a.history[rule]) && Conforms(a.history[rule])
  }

  lemma RuleReflects(a: Alerts, rule: Rule)
    requires Inv(a)
    ensures Reflects(StateOf(a, rule), HistoryOf(a, rule)) && Conforms(HistoryOf(a, rule))
  {
    assert rule in a.states <==> rule in a.states.Keys;
  }

  lemma ApplyKeepsInv(a: Alerts, rule: Rule, active: bool, delivery: Delivery, now: int)
    requires Inv(a)
    ensures Inv(Apply(a, rule, active, delivery, now))
  {
    hide Reflects, Conforms, ApplyRule, Due;
    var state, h := StateOf(a, rule), HistoryOf(a, rule);
    RuleReflects(a, rule);
    CheckSendsWhatIsDue(state, h, active, delivery, now);
    var attempt := ApplyRule(state, active, delivery, now).1;
    ConformsSnoc(h, Checked(active, attempt, delivery, now));
  }

  lemma {:induction false} ApplyAllKeepsInv(a: Alerts, rules: seq<Rule>, s: Settings, e: Evaluation)
    requires Inv(a)
    ensures Inv(ApplyAll(a, rules, s, e))
    decreases |rules|
  {
    if rules != [] {
      ApplyKeepsInv(a, rules[0], Active(s, e.signals, rules[0]), e.deliver(rules[0]), e.now);
      ApplyAllKeepsInv(Apply(a, rules[0], Active(s, e.signals, rules[0]), e.deliver(rules[0]), e.now),
                       rules[1..], s, e);
    }
  }

  lemma EvaluateKeepsInv(a: Alerts, e: Evaluation)
    requires Inv(a)
    ensures Inv(Evaluate(a, e))
  {
    hide Reflects, Conforms, ApplyAll;
    if e.load.Configured? {
      var s := e.load.settings;
      var a1 := if Destination(s) != a.destination then Forget(a).(destination := Destination(s)) else a;
      var a2 := KeepRules(a1, Rules(s));
      assert a2.states.Keys == a2.history.Keys by {
        assert forall r :: r in a2.states <==> r in a2.history by {
          assert a1.states.Keys == a1.history.Keys;
          assert forall r :: r in a1.states.Keys <==> r in a1.history.Keys;
        }
      }
      ApplyAllKeepsInv(a2, Rules(s), s, e);
    }
  }

  lemma {:induction false} RunKeepsInv(run: seq<Evaluation>)
    ensures Inv(Run(FRESH, run))
  {
    if run != [] {
      RunKeepsInv(run[..|run| - 1]);
      EvaluateKeepsInv(Run(FRESH, run[..|run| - 1]), run[|run| - 1]);
    }
  }

  // ---------------------------------------------------------------- the language of messages

  /** ALERT opens, STILL FIRING and RESOLVED need an open incident. */
  predicate InPattern(kinds: seq<Kind>) {
    kinds == [] ||
    (var front := kinds[..|kinds| - 1];
     InPattern(front) && (kinds[|kinds| - 1] == Alert <==> !Open(front)))
  }

  function Repeat(n: nat): seq<Kind> {
    if n == 0 then [] else Repeat(n - 1) + [StillFiring]
  }

  /** (ALERT STILL* RESOLVED)*, with the number of repeats of each incident. */
  function Incidents(repeats: seq<nat>): seq<Kind> {
    if repeats == [] then []
    else Incidents(repeats[..|repeats| - 1]) + [Alert] + Repeat(repeats[|repeats| - 1]) + [Resolved]
  }

  /** The incidents a message sequence closes, and the repeats of the one it leaves open. */
  lemma {:induction false} PatternIsIncidents(kinds: seq<Kind>) returns (closed: seq<nat>, repeats: nat)
    requires InPattern(kinds)
    ensures kinds == Incidents(closed) + (if Open(kinds) then [Alert] + Repeat(repeats) else [])
  {
    hide Incidents, Repeat;
    NothingYet();
    if kinds == [] {
      closed, repeats := [], 0;
    } else {
      var front, last := kinds[..|kinds| - 1], kinds[|kinds| - 1];
      closed, repeats := PatternIsIncidents(front);
      assert kinds == front + [last];
      if last == Alert {
        repeats := 0;
      } else if last == StillFiring {
        OneMoreRepeat(closed, repeats);
        repeats := repeats + 1;
      } else {
        OneMoreIncident(closed, repeats);
        closed := closed + [repeats];
      }
    }
  }

  lemma NothingYet()
    ensures Incidents([]) == [] && Repeat(0) == []
  {
  }

  lemma OneMoreRepeat(closed: seq<nat>, repeats: nat)
    ensures Incidents(closed) + ([Alert] + Repeat(repeats)) + [StillFiring]
         == Incidents(closed) + ([Alert] + Repeat(repeats + 1))
  {
    assert ([Alert] + Repeat(repeats)) + [StillFiring] == [Alert] + (Repeat(repeats) + [StillFiring]);
  }

  lemma OneMoreIncident(closed: seq<nat>, repeats: nat)
    ensures Incidents(closed + [repeats]) == Incidents(closed) + ([Alert] + Repeat(repeats)) + [Resolved]
  {
    assert (closed + [repeats])[..|closed|] == closed;
  }

  lemma {:induction false} ConformingPattern(h: seq<Checked>)
    requires Conforms(h)
    ensures InPattern(Kinds(h))
    decreases |h|
  {
    if h != [] {
      var front, c := h[..|h| - 1], h[|h| - 1];
      ConformingFront(h);
      ConformingPattern(front);
      if Confirmed(c).Some? {
        var kinds := Kinds(h);
        assert kinds == Kinds(front) + [c.attempt.value] && kinds[..|kinds| - 1] == Kinds(front);
      } else {
        assert Kinds(h) == Kinds(front);
      }
    }
  }

  // ---------------------------------------------------------------- main results

  /** An evaluation that neither moves the destination nor switches the rule off. */
  predicate Undisturbed(e: Evaluation, destination: string, rule: Rule) {
    || e.load.LoadFailed?
    || (e.load.Configured? && Destination(e.load.settings) == destination && EnabledRule(e.load.settings, rule))
  }

  function ArrivedOf(arrived: seq<Message>, rule: Rule): seq<Message> {
    if arrived == [] then []
    else
      var last := arrived[|arrived| - 1];
      ArrivedOf(arrived[..|arrived| - 1], rule) + (if last.rule == rule then [last] else [])
  }

  /** The messages of a history that arrived. */
  function Messages(rule: Rule, h: seq<Checked>): seq<Message> {
    if h == [] then [] else Messages(rule, h[..|h| - 1]) + Arrival(rule, h[|h| - 1])
  }

  lemma ArrivedSnoc(arrived: seq<Message>, m: Message, rule: Rule)
    ensures ArrivedOf(arrived + [m], rule) == ArrivedOf(arrived, rule) + (if m.rule == rule then [m] else [])
  {
    assert (arrived + [m])[..|arrived|] == arrived;
  }

  lemma MessagesSnoc(rule: Rule, h: seq<Checked>, c: Checked)
    ensures Messages(rule, h + [c]) == Messages(rule, h) + Arrival(rule, c)
  {
    assert (h + [c])[..|h|] == h;
  }

  /** The check an evaluation makes of a rule. */
  function CheckOf(state: RuleState, s: Settings, e: Evaluation, rule: Rule): Checked {
    var active := Active(s, e.signals, rule);
    Checked(active, ApplyRule(state, active, e.deliver(rule), e.now).1, e.deliver(rule), e.now)
  }

  lemma ApplyEffects(a: Alerts, first: Rule, s: Settings, e: Evaluation, rule: Rule)
    ensures var a1 := Apply(a, first, Active(s, e.signals, first), e.deliver(first), e.now);
            var c := CheckOf(StateOf(a, first), s, e, first);
            if rule == first then
              HistoryOf(a1, rule) == HistoryOf(a, rule) + [c]
              && ArrivedOf(a1.arrived, rule) == ArrivedOf(a.arrived, rule) + Arrival(rule, c)
            else
              HistoryOf(a1, rule) == HistoryOf(a, rule) && ArrivedOf(a1.arrived, rule) == ArrivedOf(a.arrived, rule)
              && StateOf(a1, rule) == StateOf(a, rule)
  {
    hide ApplyRule, Active, Arrival, ArrivedOf;
    ArrivalLogged(a.arrived, first, CheckOf(StateOf(a, first), s, e, first), rule);
  }

  lemma ArrivalLogged(arrived: seq<Message>, first: Rule, c: Checked, rule: Rule)
    ensures ArrivedOf(arrived + Arrival(first, c), rule)
         == ArrivedOf(arrived, rule) + (if rule == first then Arrival(rule, c) else [])
  {
    hide ArrivedOf;
    if Arrival(first, c) != [] {
      ArrivedSnoc(arrived, Arrival(first, c)[0], rule);
    } else {
      assert arrived + [] == arrived;
    }
  }

  /** Among distinct rules, each is checked once. */
  lemma {:induction false} ApplyAllChecksOnce(a: Alerts, rules: seq<Rule>, s: Settings, e: Evaluation, rule: Rule)
    requires NoDuplicates(rules)
    ensures var a1 := ApplyAll(a, rules, s, e);
            var c := CheckOf(StateOf(a, rule), s, e, rule);
            if rule in rules then
              HistoryOf(a1, rule) == HistoryOf(a, rule) + [c]
              && ArrivedOf(a1.arrived, rule) == ArrivedOf(a.arrived, rule) + Arrival(rule, c)
            else
              HistoryOf(a1, rule) == HistoryOf(a, rule) && ArrivedOf(a1.arrived, rule) == ArrivedOf(a.arrived, rule)
    decreases |rules|
  {
    hide Apply, CheckOf, Arrival, ArrivedOf, HistoryOf, StateOf, Active;
    if rules != [] {
      var first := rules[0];
      ApplyEffects(a, first, s, e, rule);
      assert rules == [first] + rules[1..];
      ApplyAllChecksOnce(Apply(a, first, Active(s, e.signals, first), e.deliver(first), e.now), rules[1..], s, e, rule);
    }
  }

  /** The checks a rule's next evaluation builds on: none when the audience changed. */
  function Remembered(a: Alerts, destination: string, rule: Rule): seq<Checked> {
    if a.destination == destination then HistoryOf(a, rule) else []
  }

  /**
    Main result 1: a configured evaluation checks each enabled rule once and
    tries to send exactly the message that the checks since the last change of
    audience call for.
   */
  lemma EvaluationSendsWhatIsDue(a: Alerts, e: Evaluation, rule: Rule)
    requires Inv(a) && e.load.Configured? && EnabledRule(e.load.settings, rule)
    ensures var s := e.load.settings;
            var h := Remembered(a, Destination(s), rule);
            var active := Active(s, e.signals, rule);
            var c := Checked(active, Due(h, active, e.now), e.deliver(rule), e.now);
            && HistoryOf(Evaluate(a, e), rule) == h + [c]
            && ArrivedOf(Evaluate(a, e).arrived, rule) == ArrivedOf(a.arrived, rule) + Arrival(rule, c)
  {
    hide ApplyAll, ApplyRule, Active, ArrivedOf, Due;
    var s := e.load.settings;
    var a1 := if Destination(s) != a.destination then Forget(a).(destination := Destination(s)) else a;
    var a2 := KeepRules(a1, Rules(s));
    RememberedState(a, s, rule);
    var h, active := Remembered(a, Destination(s), rule), Active(s, e.signals, rule);
    CheckSendsWhatIsDue(StateOf(a2, rule), h, active, e.deliver(rule), e.now);
    ApplyAllChecksOnce(a2, Rules(s), s, e, rule);
  }

  /** What a rule watches for; a threshold of zero switches it off. */
  predicate Watched(s: Settings, rule: Rule) {
    match rule
    case CreditsLow => s.creditsThreshold >= 1
    case FallbackRate => s.ratioThreshold >= 1
    case CircuitOpen => true
  }

  /** Whether there is something to report; the ratio in whole numbers, up to how a half is rounded. */
  predicate Firing(s: Settings, signals: Signals, rule: Rule) {
    match rule
    case CreditsLow => signals.keys >= 1 && signals.credits < s.creditsThreshold
    case FallbackRate =>
      && signals.total >= 20
      && (|| 200 * signals.fallbacks + signals.total > 2 * s.ratioThreshold * signals.total
          || (200 * signals.fallbacks + signals.total == 2 * s.ratioThreshold * signals.total
              && signals.quotient * signals.total as real >= (100 * signals.fallbacks) as real))
    case CircuitOpen => !signals.circuitClosed
  }

  lemma ActiveExactlyWhen(s: Settings, signals: Signals, rule: Rule)
    requires rule == FallbackRate && signals.total >= 20 ==> Accurate(signals)
    ensures Active(s, signals, rule) <==> Firing(s, signals, rule)
    ensures rule in Rules(s) <==> Watched(s, rule)
    ensures EnabledRule(s, rule) <==> Watched(s, rule)
  {
    hide Percent, Accurate;
    if rule == FallbackRate && signals.total >= 20 {
      PercentIsRounded(signals, s.ratioThreshold);
    }
  }

  /**
    Main result 2, from the settings and signals alone: each rule that is switched
    on is checked for its own condition, and the check tries to send what that and
    the checks since the last change of audience call for; a rule that is switched
    off sends nothing and forgets.
   */
  lemma AlertsExactlyWhen(a: Alerts, e: Evaluation, rule: Rule)
    requires Inv(a) && e.load.Configured?
    requires rule == FallbackRate && e.signals.total >= 20 ==> Accurate(e.signals)
    ensures var s := e.load.settings;
            var h := Remembered(a, Destination(s), rule);
            var firing := Firing(s, e.signals, rule);
            var after := Evaluate(a, e);
            if Watched(s, rule) then
              var c := Checked(firing, Due(h, firing, e.now), e.deliver(rule), e.now);
              HistoryOf(after, rule) == h + [c]
              && ArrivedOf(after.arrived, rule) == ArrivedOf(a.arrived, rule) + Arrival(rule, c)
            else
              HistoryOf(after, rule) == [] && ArrivedOf(after.arrived, rule) == ArrivedOf(a.arrived, rule)
  {
    hide Accurate, Active, Firing, ApplyAll, ArrivedOf, Due, Arrival;
    ActiveExactlyWhen(e.load.settings, e.signals, rule);
    if Watched(e.load.settings, rule) {
      EvaluationSendsWhatIsDue(a, e, rule);
    } else {
      UnwatchedSendsNothing(a, e, rule);
    }
  }

  lemma UnwatchedSendsNothing(a: Alerts, e: Evaluation, rule: Rule)
    requires e.load.Configured? && rule !in Rules(e.load.settings)
    ensures HistoryOf(Evaluate(a, e), rule) == []
    ensures ArrivedOf(Evaluate(a, e).arrived, rule) == ArrivedOf(a.arrived, rule)
  {
    hide ApplyAll, CheckOf, ArrivedOf, Arrival;
    var s := e.load.settings;
    var a1 := if Destination(s) != a.destination then Forget(a).(destination := Destination(s)) else a;
    ApplyAllChecksOnce(KeepRules(a1, Rules(s)), Rules(s), s, e, rule);
  }

  lemma RememberedState(a: Alerts, s: Settings, rule: Rule)
    requires Inv(a) && EnabledRule(s, rule)
    ensures var a1 := if Destination(s) != a.destination then Forget(a).(destination := Destination(s)) else a;
            var a2 := KeepRules(a1, Rules(s));
            && HistoryOf(a2, rule) == Remembered(a, Destination(s), rule)
            && Reflects(StateOf(a2, rule), Remembered(a, Destination(s), rule))
            && a2.arrived == a.arrived
            && rule in Rules(s) && NoDuplicates(Rules(s))
  {
    hide Conforms;
    assert rule in a.states <==> rule in a.states.Keys;
  }

  /** Nothing an audience read before bears on what it reads from now on. */
  predicate StartsAfresh(a: Alerts, destination: string, rule: Rule) {
    Remembered(a, destination, rule) == []
  }

  /** Whatever ends an undisturbed period lets the next one start afresh, and so does the start of the service. */
  lemma DisturbanceStartsAfresh(a: Alerts, e: Evaluation, destination: string, rule: Rule)
    requires !Undisturbed(e, destination, rule)
    ensures StartsAfresh(Evaluate(a, e), destination, rule) && StartsAfresh(FRESH, destination, rule)
  {
    hide ApplyAll, Apply;
    if e.load.Configured? {
      DestinationStays(a, e);
      var s := e.load.settings;
      var a1 := if Destination(s) != a.destination then Forget(a).(destination := Destination(s)) else a;
      var a2 := KeepRules(a1, Rules(s));
      ApplyAllChecksOnce(a2, Rules(s), s, e, rule);
    }
  }

  lemma UndisturbedEvaluation(a: Alerts, e: Evaluation, destination: string, rule: Rule) returns (more: seq<Message>)
    requires Inv(a) && Undisturbed(e, destination, rule)
    ensures Messages(rule, Remembered(Evaluate(a, e), destination, rule))
         == Messages(rule, Remembered(a, destination, rule)) + more
    ensures ArrivedOf(Evaluate(a, e).arrived, rule) == ArrivedOf(a.arrived, rule) + more
  {
    hide ApplyAll, KeepRules, Active, Due, ArrivedOf, Messages;
    if e.load.Configured? {
      EvaluationSendsWhatIsDue(a, e, rule);
      DestinationStays(a, e);
      var h := Remembered(a, destination, rule);
      var active := Active(e.load.settings, e.signals, rule);
      var c := Checked(active, Due(h, active, e.now), e.deliver(rule), e.now);
      MessagesSnoc(rule, h, c);
      more := Arrival(rule, c);
    } else {
      more := [];
    }
  }

  lemma {:induction false} UndisturbedPeriod(before: seq<Evaluation>, run: seq<Evaluation>,
                                             destination: string, rule: Rule)
    requires StartsAfresh(Run(FRESH, before), destination, rule)
    requires forall i :: 0 <= i < |run| ==> Undisturbed(run[i], destination, rule)
    ensures var a := Run(FRESH, before + run);
            ArrivedOf(a.arrived, rule)
              == ArrivedOf(Run(FRESH, before).arrived, rule) + Messages(rule, Remembered(a, destination, rule))
    decreases |run|
  {
    hide Evaluate, ArrivedOf, Remembered, Inv;
    if run == [] {
      assert before + run == before;
    } else {
      var front, e := run[..|run| - 1], run[|run| - 1];
      UndisturbedPeriod(before, front, destination, rule);
      RunKeepsInv(before + front);
      RunSnoc(before + front, e);
      assert before + run == before + front + [e];
      var a := Run(FRESH, before + front);
      var more := UndisturbedEvaluation(a, e, destination, rule);
      Regroup(ArrivedOf(Run(FRESH, before).arrived, rule), Messages(rule, Remembered(a, destination, rule)), more);
    }
  }

  lemma RunSnoc(front: seq<Evaluation>, e: Evaluation)
    ensures Run(FRESH, front + [e]) == Evaluate(Run(FRESH, front), e)
  {
    assert (front + [e])[..|front|] == front;
  }

  lemma DestinationStays(a: Alerts, e: Evaluation)
    requires e.load.Configured?
    ensures Evaluate(a, e).destination == Destination(e.load.settings)
  {
    var s := e.load.settings;
    var a1 := if Destination(s) != a.destination then Forget(a).(destination := Destination(s)) else a;
    ApplyAllKeepsDestination(KeepRules(a1, Rules(s)), Rules(s), s, e);
  }

  lemma {:induction false} ApplyAllKeepsDestination(a: Alerts, rules: seq<Rule>, s: Settings, e: Evaluation)
    ensures ApplyAll(a, rules, s, e).destination == a.destination
    decreases |rules|
  {
    if rules != [] {
      ApplyAllKeepsDestination(Apply(a, rules[0], Active(s, e.signals, rules[0]), e.deliver(rules[0]), e.now),
                               rules[1..], s, e);
    }
  }

  function KindsOf(messages: seq<Message>): seq<Kind> {
    seq(|messages|, i requires 0 <= i < |messages| => messages[i].kind)
  }

  /** The messages the service knows to have arrived. */
  function Known(messages: seq<Message>): seq<Message> {
    if messages == [] then []
    else
      var last := messages[|messages| - 1];
      Known(messages[..|messages| - 1]) + (if last.acknowledged then [last] else [])
  }

  function LastKnownAt(messages: seq<Message>): int {
    if Known(messages) == [] then 0 else Known(messages)[|Known(messages)| - 1].at
  }

  /** A repeat comes at least an hour after the last message known to have arrived before it. */
  ghost predicate Spaced(messages: seq<Message>) {
    forall i :: 0 <= i < |messages| && messages[i].kind == StillFiring ==>
      messages[i].at - LastKnownAt(messages[..i]) >= 3_600_000
  }

  /** The message after this one is an ALERT: the incident is closed, or was never seen to open. */
  predicate Reopens(m: Message) {
    m.kind == if m.acknowledged then Resolved else Alert
  }

  /** Which messages can follow each other. */
  ghost predicate Follows(messages: seq<Message>) {
    && (messages != [] ==> messages[0].kind == Alert)
    && forall i :: 0 < i < |messages| ==> (messages[i].kind == Alert <==> Reopens(messages[i - 1]))
  }

  /** The message changes what its readers believe, and not what the service does. */
  predicate Unheard(m: Message) {
    !m.acknowledged && m.kind != StillFiring
  }

  /** Where a history's messages leave the service: every property of them that the next one builds on. */
  ghost predicate Told(messages: seq<Message>, h: seq<Checked>) {
    && KindsOf(Known(messages)) == Kinds(h)
    && LastKnownAt(messages) == LastMessageAt(h)
    && Spaced(messages) && Follows(messages)
    && (Open(Kinds(h)) <==> messages != [] && !Reopens(messages[|messages| - 1]))
  }

  lemma {:induction false} MessagesOfHistory(rule: Rule, h: seq<Checked>)
    requires Conforms(h)
    ensures Told(Messages(rule, h), h)
    decreases |h|
  {
    hide Told, Conforms, Due, Arrival;
    if h == [] {
      NothingTold();
    } else {
      var front, c := h[..|h| - 1], h[|h| - 1];
      ConformingFront(h);
      MessagesOfHistory(rule, front);
      assert h == front + [c];
      MessagesSnoc(rule, front, c);
      OneMoreCheck(rule, Messages(rule, front), front, c);
    }
  }

  lemma NothingTold()
    ensures Told([], [])
  {
  }

  lemma OneMoreCheck(rule: Rule, before: seq<Message>, front: seq<Checked>, c: Checked)
    requires Told(before, front) && c.attempt == Due(front, c.active, c.at)
    ensures Told(before + Arrival(rule, c), front + [c])
  {
    hide Told, Due;
    if Arrival(rule, c) == [] {
      NothingArrived(before, front, c);
    } else {
      OneMoreMessage(before, Arrival(rule, c)[0], front, c);
    }
  }

  lemma NothingArrived(before: seq<Message>, front: seq<Checked>, c: Checked)
    requires Told(before, front) && Confirmed(c) == None
    ensures Told(before + [], front + [c])
  {
    assert before + [] == before;
    Snoc(front, c);
    hide Kinds, LastMessageAt;
  }

  lemma ConformingFront(h: seq<Checked>)
    requires Conforms(h) && h != []
    ensures Conforms(h[..|h| - 1])
    ensures h[|h| - 1].attempt == Due(h[..|h| - 1], h[|h| - 1].active, h[|h| - 1].at)
  {
    hide Due;
    var front := h[..|h| - 1];
    forall i | 0 <= i < |front| ensures front[i].attempt == Due(front[..i], front[i].active, front[i].at) {
      assert front[..i] == h[..i] && front[i] == h[i];
    }
  }

  lemma KnownSnoc(before: seq<Message>, m: Message)
    ensures Known(before + [m]) == Known(before) + (if m.acknowledged then [m] else [])
    ensures KindsOf(before + [m]) == KindsOf(before) + [m.kind]
    ensures KindsOf(Known(before + [m])) == KindsOf(Known(before)) + (if m.acknowledged then [m.kind] else [])
    ensures LastKnownAt(before + [m]) == if m.acknowledged then m.at else LastKnownAt(before)
  {
    assert (before + [m])[..|before|] == before;
  }

  lemma OneMoreMessage(before: seq<Message>, m: Message, front: seq<Checked>, c: Checked)
    requires Told(before, front) && c.attempt == Due(front, c.active, c.at) && c.attempt.Some?
    requires m == Message(m.rule, c.attempt.value, c.at, c.delivery.Acknowledged?)
    ensures Told(before + [m], front + [c])
  {
    KnownSnoc(before, m);
    Snoc(front, c);
    hide Kinds, LastMessageAt, CleanSuffix, Known, KindsOf, LastKnownAt;
    var after := before + [m];
    forall i | 0 <= i < |after| && after[i].kind == StillFiring
      ensures after[i].at - LastKnownAt(after[..i]) >= 3_600_000 {
      assert after[..i] == before[..i];
      assert i == |before| ==> before[..i] == before;
    }
    forall i | 0 < i < |after| ensures after[i].kind == Alert <==> Reopens(after[i - 1]) {
    }
  }

  /**
    Main result 3, for every pattern of send failures and lost answers, whatever
    happened before: while destination and rule are unchanged, the messages of a
    rule that are known to have arrived spell a prefix of (ALERT STILL* RESOLVED)*,
    and a repeat comes at least an hour after the last of them.
   */
  lemma IncidentsReadWell(before: seq<Evaluation>, run: seq<Evaluation>, destination: string, rule: Rule)
    returns (since: seq<Message>, closed: seq<nat>, repeats: nat)
    requires StartsAfresh(Run(FRESH, before), destination, rule)
    requires forall i :: 0 <= i < |run| ==> Undisturbed(run[i], destination, rule)
    ensures ArrivedOf(Run(FRESH, before + run).arrived, rule) == ArrivedOf(Run(FRESH, before).arrived, rule) + since
    ensures var known := KindsOf(Known(since));
            known == Incidents(closed) + (if Open(known) then [Alert] + Repeat(repeats) else [])
    ensures Spaced(since) && Follows(since)
  {
    var a := Run(FRESH, before + run);
    UndisturbedPeriod(before, run, destination, rule);
    RunKeepsInv(before + run);
    RuleReflects(a, rule);
    var h := Remembered(a, destination, rule);
    MessagesOfHistory(rule, h);
    ConformingPattern(h);
    closed, repeats := PatternIsIncidents(Kinds(h));
    since := Messages(rule, h);
  }

  /**
    Main result 4: what such a period's readers get reads well exactly when no
    other message comes after an ALERT or a RESOLVED whose answer was lost. After
    such an ALERT the next one read is another ALERT, after such a RESOLVED it
    is none.
   */
  lemma ReadsWellExactlyWhen(before: seq<Evaluation>, run: seq<Evaluation>, destination: string, rule: Rule)
    returns (since: seq<Message>)
    requires StartsAfresh(Run(FRESH, before), destination, rule)
    requires forall i :: 0 <= i < |run| ==> Undisturbed(run[i], destination, rule)
    ensures ArrivedOf(Run(FRESH, before + run).arrived, rule) == ArrivedOf(Run(FRESH, before).arrived, rule) + since
    ensures InPattern(KindsOf(since)) <==> forall i :: 0 <= i < |since| - 1 ==> !Unheard(since[i])
    ensures forall i :: 0 <= i < |since| - 1 && Unheard(since[i]) ==>
              (since[i + 1].kind == Alert <==> since[i].kind == Alert)
  {
    hide Run, Messages, Known, KindsOf, StartsAfresh, Undisturbed, ArrivedOf, InPattern;
    var closed, repeats;
    since, closed, repeats := IncidentsReadWell(before, run, destination, rule);
    PatternExactlyWhen(since);
  }

  lemma {:induction false} PatternExactlyWhen(messages: seq<Message>)
    requires Follows(messages)
    ensures InPattern(KindsOf(messages)) <==> forall i :: 0 <= i < |messages| - 1 ==> !Unheard(messages[i])
    decreases |messages|
  {
    hide KindsOf, Follows, InPattern, Open;
    LastKind(messages);
    if messages == [] {
      PatternSnoc([], Alert);
    } else {
      var front, last := messages[..|messages| - 1], messages[|messages| - 1];
      FollowsFront(messages);
      assert messages == front + [last];
      KnownSnoc(front, last);
      LastKind(front);
      PatternSnoc(KindsOf(front), last.kind);
      PatternExactlyWhen(front);
    }
  }

  lemma PatternSnoc(kinds: seq<Kind>, last: Kind)
    ensures InPattern([])
    ensures InPattern(kinds + [last]) <==> InPattern(kinds) && (last == Alert <==> !Open(kinds))
  {
    assert (kinds + [last])[..|kinds|] == kinds;
  }

  lemma FollowsFront(messages: seq<Message>)
    requires Follows(messages) && messages != []
    ensures Follows(messages[..|messages| - 1])
    ensures messages[|messages| - 1].kind == Alert <==> |messages| == 1 || Reopens(messages[|messages| - 2])
  {
  }

  lemma LastKind(messages: seq<Message>)
    ensures |KindsOf(messages)| == |messages| && (messages == [] ==> KindsOf(messages) == [])
    ensures Open(KindsOf(messages)) <==> messages != [] && messages[|messages| - 1].kind != Resolved
  {
  }

  /** An ALERT that arrived without its answer is read again a minute later. */
  lemma LostAnswerRepeatsAlert(s: Settings, signals: Signals, now: int)
    requires !signals.circuitClosed
    ensures var lost := Evaluation(Configured(s), signals, _ => AnswerLost, now);
            var heard := Evaluation(Configured(s), signals, _ => Acknowledged, now + 60_000);
            ArrivedOf(Run(FRESH, [lost, heard]).arrived, CircuitOpen)
              == [Message(CircuitOpen, Alert, now, false), Message(CircuitOpen, Alert, now + 60_000, true)]
  {
    hide ApplyAll, KeepRules, Evaluate;
    var lost := Evaluation(Configured(s), signals, _ => AnswerLost, now);
    var heard := Evaluation(Configured(s), signals, _ => Acknowledged, now + 60_000);
    RunSnoc([], lost);
    RunSnoc([lost], heard);
    assert [] + [lost] == [lost] && [lost] + [heard] == [lost, heard];
    RunKeepsInv([]);
    EvaluationSendsWhatIsDue(FRESH, lost, CircuitOpen);
    DestinationStays(FRESH, lost);
    RunKeepsInv([lost]);
    Snoc([], Checked(true, Some(Alert), AnswerLost, now));
    assert HistoryOf(Run(FRESH, [lost]), CircuitOpen) == [] + [Checked(true, Some(Alert), AnswerLost, now)];
    EvaluationSendsWhatIsDue(Run(FRESH, [lost]), heard, CircuitOpen);
  }

  /** Main result 5: a resolution ends at least three consecutive clean checks of an open incident. */
  lemma ResolvedAfterCleanChecks(run: seq<Evaluation>, rule: Rule, i: nat)
    requires i < |HistoryOf(Run(FRESH, run), rule)|
    requires HistoryOf(Run(FRESH, run), rule)[i].attempt == Some(Resolved)
    ensures var h := HistoryOf(Run(FRESH, run), rule);
            && i >= 3
            && Open(Kinds(h[..i]))
            && forall j :: i - 3 < j <= i ==> !h[j].active
  {
    hide Run, Due, Conforms;
    RunKeepsInv(run);
    var a := Run(FRESH, run);
    var h := HistoryOf(a, rule);
    assert rule in a.states <==> rule in a.states.Keys;
    assert Conforms(h);
    ResolutionIsEarned(h, i);
  }

  lemma ResolutionIsEarned(h: seq<Checked>, i: nat)
    requires Conforms(h) && i < |h| && h[i].attempt == Some(Resolved)
    ensures i >= 3 && Open(Kinds(h[..i]))
    ensures forall j :: i - 3 < j <= i ==> !h[j].active
  {
    assert h[i].attempt == Due(h[..i], h[i].active, h[i].at);
    CleanSuffixIsClean(h[..i]);
    OpenNeedsActive(h, i);
    forall j | i - 3 < j < i ensures !h[j].active {
      assert h[..i][j] == h[j];
    }
  }

  lemma {:induction false} CleanSuffixIsClean(h: seq<Checked>)
    ensures CleanSuffix(h) <= |h|
    ensures forall j :: |h| - CleanSuffix(h) <= j < |h| ==> !h[j].active
  {
    if h != [] && !h[|h| - 1].active {
      CleanSuffixIsClean(h[..|h| - 1]);
    }
  }

  /** An incident is opened by an active check. */
  lemma {:induction false} OpenNeedsActive(h: seq<Checked>, n: nat)
    requires Conforms(h) && n <= |h| && Open(Kinds(h[..n]))
    ensures CleanSuffix(h[..n]) < n
  {
    var front := h[..n];
    assert n > 0 && front[..n - 1] == h[..n - 1] && front[n - 1] == h[n - 1];
    var c := h[n - 1];
    assert c.attempt == Due(h[..n - 1], c.active, c.at);
    if !c.active {
      if Confirmed(c) == None {
        assert Kinds(front) == Kinds(h[..n - 1]);
      }
      OpenNeedsActive(h, n - 1);
    }
  }

  lemma BreakComesAfter(s: Settings)
    requires '\n' !in s.chatId
    ensures |Destination(s)| > |s.chatId| && Destination(s)[|s.chatId|] == '\n'
    ensures forall i :: 0 <= i < |s.chatId| ==> Destination(s)[i] != '\n'
  {
    forall i | 0 <= i < |s.chatId| ensures Destination(s)[i] != '\n' {
      assert Destination(s)[i] == s.chatId[i] && s.chatId[i] in s.chatId;
    }
  }

  /** Different chats or bots are different destinations: a valid chat id holds no line break. */
  lemma DestinationsSeparate(s: Settings, s1: Settings)
    requires '\n' !in s.chatId && '\n' !in s1.chatId
    ensures Destination(s) == Destination(s1) <==> s.chatId == s1.chatId && s.botToken == s1.botToken
    ensures Destination(s) != ""
  {
    BreakComesAfter(s);
    BreakComesAfter(s1);
    var d, d1 := Destination(s), Destination(s1);
    if d == d1 {
      assert |s.chatId| == |s1.chatId|;
      assert d[..|s.chatId|] == s.chatId && d1[..|s1.chatId|] == s1.chatId;
      assert d[|s.chatId| + 1..] == s.botToken && d1[|s1.chatId| + 1..] == s1.botToken;
    }
  }

  /**
    The double is off by less than 1 / (2 * total). Two roundings of a
    value of at most 100 are, for fewer than 10^13 requests in ten minutes.
   */
  predicate Accurate(s: Signals) {
    -1.0 < 2.0 * (s.quotient * s.total as real) - (200 * s.fallbacks) as real < 1.0
  }

  /**
    The fallback rule fires from half a percentage point below the threshold. At
    an exact half the double decides: it fires unless the quotient was rounded down.
   */
  lemma PercentIsRounded(s: Signals, threshold: int)
    requires s.total > 0 && Accurate(s)
    ensures Percent(s) >= threshold <==>
              || 200 * s.fallbacks + s.total > 2 * threshold * s.total
              || (200 * s.fallbacks + s.total == 2 * threshold * s.total
                  && s.quotient * s.total as real >= (100 * s.fallbacks) as real)
  {
    hide Percent;
    var product, share := 2 * threshold * s.total, s.quotient * s.total as real;
    PercentAtLeast(s, threshold);
    TimesTotal(s.quotient, threshold, s.total, product, share);
    NearInteger(2.0 * share, 200 * s.fallbacks, s.total, product);
  }

  lemma PercentAtLeast(s: Signals, n: int)
    requires s.total > 0
    ensures Percent(s) >= n <==> s.quotient + 0.5 >= n as real
  {
    FloorAtLeast(s.quotient + 0.5, n);
  }

  lemma FloorAtLeast(x: real, n: int)
    ensures x.Floor >= n <==> x >= n as real
  {
  }

  function Times(a: real, b: real): real {
    a * b
  }

  lemma TimesTotal(q: real, n: int, total: nat, product: int, share: real)
    requires total > 0 && product == 2 * n * total && share == q * total as real
    ensures q + 0.5 >= n as real <==> 2.0 * share >= (product - total) as real
  {
    hide Times;
    var t := total as real;
    Scale(q + 0.5, n as real, t);
    Expand(q, t, share);
    Product(n, total, product);
    Doubled(share, total, product, Times(n as real, t));
  }

  lemma Scale(a: real, b: real, t: real)
    requires t > 0.0
    ensures a >= b <==> Times(a, t) >= Times(b, t)
  {
    if a >= b {
      assert (a - b) * t >= 0.0;
    } else {
      assert (b - a) * t > 0.0;
    }
  }

  lemma Expand(q: real, t: real, share: real)
    requires share == q * t
    ensures Times(q + 0.5, t) == share + 0.5 * t
  {
  }

  lemma {:induction false} Product(a: int, b: nat, product: int)
    requires product == 2 * a * b
    ensures product as real == 2.0 * Times(a as real, b as real)
  {
    hide Times;
    if b > 0 {
      OneMore(2 * a, b - 1);
      Product(a, b - 1, product - 2 * a);
      OneMoreTimes(a as real, (b - 1) as real);
    } else {
      NoTimes(a as real);
    }
  }

  lemma OneMore(a: int, b: int)
    ensures a * (b + 1) == a * b + a
  {
  }

  lemma OneMoreTimes(a: real, b: real)
    ensures Times(a, b + 1.0) == Times(a, b) + a
  {
  }

  lemma NoTimes(a: real)
    ensures Times(a, 0.0) == 0.0
  {
  }

  lemma Doubled(share: real, total: int, product: int, half: real)
    requires product as real == 2.0 * half
    ensures share + 0.5 * total as real >= half <==> 2.0 * share >= (product - total) as real
  {
  }

  /**
    Within one of the integer `n`, `scaled` reaches an integer below it, not one above, and `n`
    itself as it may be.
   */
  lemma NearInteger(scaled: real, n: int, total: int, product: int)
    requires -1.0 < scaled - n as real < 1.0
    ensures scaled >= (product - total) as real <==>
              n + total > product || (n + total == product && scaled >= n as real)
  {
  }
}
