/** The alert service: incident states per rule, updated in place on each evaluation. */
module AlertServices {
  import opened Common
  import opened AlertSpec

  class AlertService {
    var states: map<Rule, RuleState>
    var destination: string
    var evaluating: bool
    ghost var history: map<Rule, seq<Checked>>
    ghost var arrived: seq<Message>

    ghost function State(): Alerts
      reads this
    {
      Alerts(states, destination, history, arrived)
    }

    constructor ()
      ensures State() == FRESH && !evaluating
    {
      states, destination, evaluating := map[], "", false;
      history, arrived := map[], [];
    }

    method Clear()
      modifies this`states, this`history
      ensures State() == Forget(old(State()))
    {
      states, history := map[], map[];
    }

    /** Rules that are not checked any more forget their incidents. */
    method ForgetDisabled(rules: seq<Rule>)
      modifies this`states, this`history
      ensures State() == KeepRules(old(State()), rules)
    {
      var left := states.Keys;
      while left != {}
        invariant left <= old(states).Keys && history == old(history)
        invariant states == map r | r in old(states) && (r in left || r in rules) :: old(states)[r]
        decreases left
      {
        var rule :| rule in left;
        left := left - {rule};
        if rule !in rules {
          states := states - {rule};
        }
      }
      history := map r | r in history && r in rules :: history[r];
      assert State().states == KeepRules(old(State()), rules).states;
    }

    /** One check of a rule; `delivery` is how the send ends, if a message is due. */
    method ApplyCheck(rule: Rule, active: bool, delivery: Delivery, now: int)
      modifies this`states, this`history, this`arrived
      ensures State() == Apply(old(State()), rule, active, delivery, now)
    {
      var state := if rule in states then states[rule] else RuleState(false, 0, 0);
      ghost var attempt: Option<Kind> := None;
      if active {
        state := state.(cleanChecks := 0);
        if !state.firing {
          attempt := Some(Alert);
          if delivery.Acknowledged? {
            state := state.(firing := true, lastNotifiedAt := now);
          }
        } else if now - state.lastNotifiedAt >= REMINDER_MS {
          attempt := Some(StillFiring);
          if delivery.Acknowledged? {
            state := state.(lastNotifiedAt := now);
          }
        }
      } else if state.firing {
        state := state.(cleanChecks := state.cleanChecks + 1);
        if state.cleanChecks >= RESOLVE_AFTER_CLEAN_CHECKS {
          attempt := Some(Resolved);
          if delivery.Acknowledged? {
            state := state.(firing := false, cleanChecks := 0);
          }
        }
      }
      states := states[rule := state];
      ghost var c := Checked(active, attempt, delivery, now);
      history := history[rule := (if rule in history then history[rule] else []) + [c]];
      arrived := arrived + Arrival(rule, c);
    }

    method ApplyChecks(rules: seq<Rule>, s: Settings, e: Evaluation)
      modifies this`states, this`history, this`arrived
      ensures State() == ApplyAll(old(State()), rules, s, e)
    {
      for i := 0 to |rules|
        invariant destination == old(destination)
        invariant ApplyAll(State(), rules[i..], s, e) == ApplyAll(old(State()), rules, s, e)
      {
        assert rules[i..][1..] == rules[i + 1..];
        ApplyCheck(rules[i], Active(s, e.signals, rules[i]), e.deliver(rules[i]), e.now);
      }
    }

    /** Runs every rule once; a run that overlaps another one does nothing. */
    method Evaluate(e: Evaluation)
      modifies this
      ensures State() == if old(evaluating) then old(State()) else AlertSpec.Evaluate(old(State()), e)
      ensures evaluating == old(evaluating)
    {
      if evaluating {
        return;
      }
      evaluating := true;
      match e.load {
        case LoadFailed =>
        case NotConfigured =>
          Clear();
          destination := "";
        case Configured(s) =>
          if Destination(s) != destination {
            Clear();
            destination := Destination(s);
          }
          ForgetDisabled(Rules(s));
          ApplyChecks(Rules(s), s, e);
      }
      evaluating := false;
    }
  }
}
