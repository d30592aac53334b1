/** When a pool of the ledger can be given out, from what was done to it and nothing else. */
module LedgerBlocks {
  import opened Common
  import opened LedgerSpec
  import opened LedgerProofs
  import opened CreditLedger
  import KeySelection

  // ---------------------------------------------------------------- what a run did

  predicate Disables(step: Step) {
    (step.SettleStep? && step.action.ToDisabled?) || (step.ReconcileStep? && step.snapshot <= 0)
  }

  predicate Refills(step: Step) {
    step.ReconcileStep? && step.snapshot > 0
  }

  /** The key was reported exhausted, and no balance has been seen since. */
  predicate Exhausted(steps: seq<Step>) {
    exists i :: 0 <= i < |steps| && Disables(steps[i]) && forall j :: i < j < |steps| ==> !Refills(steps[j])
  }

  /** The key was rate limited until later than now, and not reported exhausted since. */
  predicate RateLimited(steps: seq<Step>, now: int) {
    exists i :: 0 <= i < |steps| && steps[i].SettleStep? && steps[i].action.ToCooldown? && steps[i].until > now
             && forall j :: i < j < |steps| ==> !(steps[j].SettleStep? && steps[j].action.ToDisabled?)
  }

  /** The renewal time of the latest reconcile. */
  function Renewal(steps: seq<Step>): int {
    if steps == [] then 0
    else if steps[|steps| - 1].ReconcileStep? then steps[|steps| - 1].renewsAt
    else Renewal(steps[..|steps| - 1])
  }

  lemma ExhaustedSnoc(steps: seq<Step>, last: Step)
    ensures Exhausted(steps + [last]) <==> Disables(last) || (Exhausted(steps) && !Refills(last))
  {
    var all := steps + [last];
    assert all[|steps|] == last;
    if Disables(last) {
      assert Exhausted(all);
    }
    if Exhausted(steps) && !Refills(last) {
      var i :| 0 <= i < |steps| && Disables(steps[i]) && forall j :: i < j < |steps| ==> !Refills(steps[j]);
      assert all[i] == steps[i];
    }
    if Exhausted(all) && !Disables(last) {
      var i :| 0 <= i < |all| && Disables(all[i]) && forall j :: i < j < |all| ==> !Refills(all[j]);
      assert all[i] == steps[i];
      assert forall j :: i < j < |steps| ==> all[j] == steps[j];
    }
  }

  lemma RateLimitedSnoc(steps: seq<Step>, last: Step, now: int)
    ensures RateLimited(steps + [last], now) <==>
              || (last.SettleStep? && last.action.ToCooldown? && last.until > now)
              || (RateLimited(steps, now) && !(last.SettleStep? && last.action.ToDisabled?))
  {
    var all := steps + [last];
    assert all[|steps|] == last;
    if RateLimited(steps, now) && !(last.SettleStep? && last.action.ToDisabled?) {
      var i :| 0 <= i < |steps| && steps[i].SettleStep? && steps[i].action.ToCooldown? && steps[i].until > now
            && forall j :: i < j < |steps| ==> !(steps[j].SettleStep? && steps[j].action.ToDisabled?);
      assert all[i] == steps[i];
    }
    if RateLimited(all, now) && !(last.SettleStep? && last.action.ToCooldown? && last.until > now) {
      var i :| 0 <= i < |all| && all[i].SettleStep? && all[i].action.ToCooldown? && all[i].until > now
            && forall j :: i < j < |all| ==> !(all[j].SettleStep? && all[j].action.ToDisabled?);
      assert all[i] == steps[i];
      assert forall j :: i < j < |steps| ==> all[j] == steps[j];
    }
  }

  lemma {:induction false} RunSnoc(w: World, steps: seq<Step>, last: Step)
    ensures Run(w, steps + [last]) == Apply(Run(w, steps), last)
    decreases |steps|
  {
    hide Apply;
    if steps == [] {
      assert [] + [last] == [last];
      assert [last][1..] == [];
    } else {
      assert (steps + [last])[0] == steps[0] && (steps + [last])[1..] == steps[1..] + [last];
      RunSnoc(Apply(w, steps[0]), steps[1..], last);
    }
  }

  // ---------------------------------------------------------------- what the pool shows of it

  /** The clock of a reconcile is not ahead of this time. */
  predicate ReconciledBy(steps: seq<Step>, now: int) {
    forall i :: 0 <= i < |steps| && steps[i].ReconcileStep? ==> steps[i].now <= now
  }

  lemma {:induction false} PoolShows(steps: seq<Step>, now: int)
    requires now >= 0 && ReconciledBy(steps, now)
    ensures var p := Run(START, steps).pool;
            && (p.disabled <==> Exhausted(steps))
            && (p.cooldownUntil > now <==> RateLimited(steps, now))
            && p.renewsAt == Renewal(steps)
    decreases |steps|
  {
    hide Exhausted, RateLimited, Run;
    if steps == [] {
      NothingDone(now);
    } else {
      var front, last := steps[..|steps| - 1], steps[|steps| - 1];
      assert steps == front + [last];
      PoolShows(front, now);
      RunSnoc(START, front, last);
      ExhaustedSnoc(front, last);
      RateLimitedSnoc(front, last, now);
      StepShows(Run(START, front), last, now);
    }
  }

  lemma NothingDone(now: int)
    ensures Run(START, []) == START && !Exhausted([]) && !RateLimited([], now)
  {
  }

  lemma StepShows(w: World, step: Step, now: int)
    requires now >= 0 && (step.ReconcileStep? ==> step.now <= now)
    ensures var p, q := w.pool, Apply(w, step).pool;
            && (q.disabled <==> Disables(step) || (p.disabled && !Refills(step)))
            && (q.cooldownUntil > now <==>
                  || (step.SettleStep? && step.action.ToCooldown? && step.until > now)
                  || (p.cooldownUntil > now && !(step.SettleStep? && step.action.ToDisabled?)))
            && q.renewsAt == if step.ReconcileStep? then step.renewsAt else p.renewsAt
  {
    hide Sum, Amounts, Restrict, Kept, Swept;
  }

  /** The reserve script may select this pool. */
  predicate CanBeReserved(p: Pool, amount: int, now: int) {
    KeySelection.LuaRank(ViewOf(p, now), amount).Some?
  }

  /**
    Main result 1, for every run of the scripts on a pool: it can be given out
    exactly when its balance is known and covers the amount, no rate limit put on
    it lasts, and it was not reported exhausted since a balance was last seen.
    Refunds, usage and expiry of other reservations make no difference to that,
    and a reconcile does not end a rate limit that lasts.
   */
  lemma ReservableExactlyWhen(steps: seq<Step>, amount: int, now: int)
    requires now >= 0 && ReconciledBy(steps, now)
    ensures var p := Run(START, steps).pool;
            CanBeReserved(p, amount, now) <==>
              && p.credits.Some? && p.credits.value >= amount
              && !RateLimited(steps, now) && !Exhausted(steps)
  {
    hide Run, RateLimited, Exhausted;
    PoolShows(steps, now);
  }

  /** The script gives out nothing that cannot be: what RESERVE takes from is never blocked or short. */
  lemma FirstInLineCanBeReserved(pools: map<KeyId, Pool>, keys: seq<KeyId>, amount: int, now: int, i: nat)
    requires i in KeySelection.TieSet(KeySelection.LuaRanks(ViewsIn(pools, keys, now), amount))
    ensures i < |keys| && CanBeReserved(PoolIn(pools, keys[i]), amount, now)
  {
  }

  /**
    What the selection reads of a pool: nothing if it is blocked or short, else its renewal, if
    positive, and balance.
   */
  function PoolReading(p: Pool, amount: int, now: int): KeySelection.Reading {
    if p.disabled || p.cooldownUntil > now || p.credits == None || p.credits.value < amount then KeySelection.Passed
    else KeySelection.Considered(if p.renewsAt > 0 then Some(p.renewsAt) else None, p.credits.value)
  }

  /** Main result 2: the script selects, among the pools that can be given out, by their own renewals and balances. */
  lemma SelectionFollowsTheRule(pools: map<KeyId, Pool>, keys: seq<KeyId>, amount: int, now: int)
    ensures var readings := seq(|keys|, k requires 0 <= k < |keys| => PoolReading(PoolIn(pools, keys[k]), amount, now));
            forall i: nat ::
              i in KeySelection.TieSet(KeySelection.LuaRanks(ViewsIn(pools, keys, now), amount))
              <==> KeySelection.FirstInLineOf(readings, i)
  {
    hide KeySelection.TieSet, KeySelection.FirstInLineOf, KeySelection.LuaRanks;
    var views := ViewsIn(pools, keys, now);
    KeySelection.ScansFollowTheRule(views, amount, []);
    assert seq(|views|, k requires 0 <= k < |views| => KeySelection.LuaReading(views[k], amount))
        == seq(|keys|, k requires 0 <= k < |keys| => PoolReading(PoolIn(pools, keys[k]), amount, now));
  }
}
