/**
  Every run of reserve, settle, actual-usage, reconcile and expiry steps on a
  pool: invariants, conservation of credits, and what a snapshot taken between
  capture and reconcile comes to.
 */
module LedgerProofs {
  import opened Common
  import opened LedgerSpec

  datatype Step =
    | ReserveStep(id: Id, amount: int)
    | SettleStep(id: Id, action: Action, until: int)
    | UsageStep(id: Id, actual: int)
    | ReconcileStep(snapshot: int, sequence: int, now: int, renewsAt: int)
    | ExpireStep(id: Id)

  /**
    A pool with its history: every id ever reserved, the amounts whose hash
    expired since the last reconcile, and how often each id was accounted for.
   */
  datatype World = World(pool: Pool, issued: set<Id>, lapsed: map<Id, int>, accounted: multiset<Id>)

  const START := World(EMPTY_POOL, {}, map[], multiset{})

  /** What the callers guarantee: fresh ids and selected pools for reserve, non-negative snapshots. */
  predicate Enabled(w: World, step: Step) {
    match step
    case ReserveStep(id, amount) =>
      id !in w.issued && amount >= 1 && w.pool.credits.Some? && w.pool.credits.value >= amount
    case ReconcileStep(snapshot, _, _, _) => snapshot >= 0
    case ExpireStep(id) => id in w.pool.hashes
    case _ => true
  }

  ghost function Dropped(p: Pool, sequence: int): set<Id> {
    p.members.Keys - Kept(p, sequence)
  }

  ghost function Apply(w: World, step: Step): World {
    var p := w.pool;
    match step
    case ReserveStep(id, amount) => w.(pool := Reserve(p, id, amount), issued := w.issued + {id})
    case SettleStep(id, action, until) =>
      w.(pool := Settle(p, id, action, until),
         accounted := if IsOpen(p, id) then w.accounted + multiset{id} else w.accounted)
    case UsageStep(id, actual) =>
      w.(pool := ActualUsage(p, id, actual),
         accounted := if actual >= 0 && IsOpen(p, id) then w.accounted + multiset{id} else w.accounted)
    case ReconcileStep(snapshot, sequence, now, renewsAt) =>
      w.(pool := Reconcile(p, snapshot, sequence, now, renewsAt),
         lapsed := map[],
         accounted := w.accounted + multiset(Dropped(p, sequence)))
    case ExpireStep(id) =>
      w.(pool := Expire(p, id),
         lapsed := if id in p.hashes then w.lapsed[id := p.hashes[id].amount] else w.lapsed)
  }

  predicate NumbersFit(p: Pool) {
    && Balance(p) >= 0 && p.reserved >= 0 && p.reserveSequence >= 0
    && (p.credits.None? ==> p.members == map[] && p.reserved == 0)
  }

  /** Every reservation hash is open and in the sorted set under its own sequence. */
  predicate HashesFit(p: Pool) {
    forall id :: id in p.hashes ==>
      var h := p.hashes[id];
      h.state == Open && !h.reconciled && h.amount >= 1 && id in p.members && p.members[id] == h.sequence
  }

  predicate SequencesUnique(p: Pool) {
    && (forall id :: id in p.members ==> 1 <= p.members[id] <= p.reserveSequence)
    && (forall id, other :: id in p.members && other in p.members && id != other ==> p.members[id] != p.members[other])
  }

  /** The sorted set holds the open reservations and the lapsed ones, nothing else. */
  predicate MembersFit(w: World) {
    && w.pool.members.Keys == w.pool.hashes.Keys + w.lapsed.Keys
    && w.pool.hashes.Keys !! w.lapsed.Keys
    && forall id :: id in w.lapsed ==> w.lapsed[id] >= 1
  }

  /** Reserved is the sum of the open amounts plus those lapsed since the last reconcile. */
  ghost predicate ReservedFits(w: World) {
    w.pool.reserved == Sum(Amounts(w.pool.hashes)) + Sum(w.lapsed)
  }

  predicate AccountedOnce(w: World) {
    && (forall id :: id in w.accounted ==> w.accounted[id] == 1 && id in w.issued && id !in w.pool.members)
    && w.pool.members.Keys <= w.issued
  }

  ghost predicate Inv(w: World) {
    && NumbersFit(w.pool) && HashesFit(w.pool) && SequencesUnique(w.pool)
    && MembersFit(w) && ReservedFits(w) && AccountedOnce(w)
  }

  lemma AmountsNonNegative(w: World)
    requires HashesFit(w.pool) && MembersFit(w)
    ensures Sum(Amounts(w.pool.hashes)) >= 0 && Sum(w.lapsed) >= 0
  {
    SumNonNegative(Amounts(w.pool.hashes));
    SumNonNegative(w.lapsed);
  }

  // ---------------------------------------------------------------- reserve

  lemma ReserveFitsShape(w: World, id: Id, amount: int)
    requires HashesFit(w.pool) && SequencesUnique(w.pool) && MembersFit(w) && w.pool.reserveSequence >= 0
    requires id !in w.pool.members && amount >= 1
    ensures HashesFit(Reserve(w.pool, id, amount)) && SequencesUnique(Reserve(w.pool, id, amount))
    ensures MembersFit(w.(pool := Reserve(w.pool, id, amount)))
  {
    hide HashesFit, SequencesUnique;
    ReserveFitsHashes(w.pool, id, amount);
    ReserveFitsSequences(w.pool, id, amount);
    var p := Reserve(w.pool, id, amount);
    assert p.members.Keys == w.pool.members.Keys + {id} && p.hashes.Keys == w.pool.hashes.Keys + {id};
  }

  lemma ReserveFitsHashes(p: Pool, id: Id, amount: int)
    requires HashesFit(p) && id !in p.members && amount >= 1
    ensures HashesFit(Reserve(p, id, amount))
  {
  }

  lemma ReserveFitsSequences(p: Pool, id: Id, amount: int)
    requires SequencesUnique(p) && p.reserveSequence >= 0 && id !in p.members
    ensures SequencesUnique(Reserve(p, id, amount))
  {
  }

  lemma ReserveFitsSum(w: World, id: Id, amount: int)
    requires ReservedFits(w) && id !in w.pool.hashes
    ensures ReservedFits(Apply(w, ReserveStep(id, amount)))
  {
    SumAdd(Amounts(w.pool.hashes), id, amount);
    assert Amounts(Reserve(w.pool, id, amount).hashes) == Amounts(w.pool.hashes)[id := amount];
  }

  lemma ReserveKeepsInv(w: World, id: Id, amount: int)
    requires Inv(w) && Enabled(w, ReserveStep(id, amount))
    ensures Inv(Apply(w, ReserveStep(id, amount)))
  {
    hide HashesFit, SequencesUnique, ReservedFits;
    assert id !in w.pool.members.Keys;
    ReserveFitsShape(w, id, amount);
    ReserveFitsSum(w, id, amount);
  }

  // ---------------------------------------------------------------- settle and actual usage

  /** `v` is `w` without the open reservation `id`, accounted for, with whatever other fields. */
  predicate Removes(w: World, v: World, id: Id) {
    && IsOpen(w.pool, id)
    && v.pool.members == w.pool.members - {id} && v.pool.hashes == w.pool.hashes - {id}
    && v.pool.reserved == w.pool.reserved - w.pool.hashes[id].amount
    && v.pool.reserveSequence == w.pool.reserveSequence
    && v.issued == w.issued && v.lapsed == w.lapsed && v.accounted == w.accounted + multiset{id}
    && Balance(v.pool) >= 0 && v.pool.credits.Some?
  }

  lemma RemovalFitsShape(w: World, v: World, id: Id)
    requires HashesFit(w.pool) && SequencesUnique(w.pool) && MembersFit(w) && Removes(w, v, id)
    ensures HashesFit(v.pool) && SequencesUnique(v.pool) && MembersFit(v)
  {
    assert v.pool.members.Keys == w.pool.members.Keys - {id};
    assert v.pool.hashes.Keys == w.pool.hashes.Keys - {id};
  }

  lemma RemovalFitsSum(w: World, v: World, id: Id)
    requires ReservedFits(w) && Removes(w, v, id)
    ensures ReservedFits(v)
  {
    SumRemove(Amounts(w.pool.hashes), id);
    assert Amounts(w.pool.hashes) - {id} == Amounts(v.pool.hashes);
  }

  lemma RemovalAccounts(w: World, v: World, id: Id)
    requires AccountedOnce(w) && id in w.pool.members && Removes(w, v, id)
    ensures AccountedOnce(v)
  {
    assert v.pool.members.Keys == w.pool.members.Keys - {id};
  }

  lemma RemovalKeepsInv(w: World, v: World, id: Id)
    requires Inv(w) && Removes(w, v, id)
    ensures Inv(v)
  {
    RemovalFitsShape(w, v, id);
    RemovalFitsSum(w, v, id);
    RemovalAccounts(w, v, id);
    AmountsNonNegative(v);
  }

  lemma NotOpenNotThere(p: Pool, id: Id)
    requires HashesFit(p) && !IsOpen(p, id)
    ensures p.hashes - {id} == p.hashes
  {
  }

  /** `v` has the reservations of `w` and some other non-negative balance. */
  predicate SameReservations(w: World, v: World) {
    && v.pool.members == w.pool.members && v.pool.hashes == w.pool.hashes
    && v.pool.reserved == w.pool.reserved && v.pool.reserveSequence == w.pool.reserveSequence
    && v.issued == w.issued && v.lapsed == w.lapsed && v.accounted == w.accounted
    && Balance(v.pool) >= 0 && (v.pool.credits.Some? || v.pool.credits == w.pool.credits)
  }

  lemma SameKeepsInv(w: World, v: World)
    requires Inv(w) && SameReservations(w, v)
    ensures Inv(v)
  {
  }

  lemma SettleKeepsInv(w: World, id: Id, action: Action, until: int)
    requires Inv(w)
    ensures Inv(Apply(w, SettleStep(id, action, until)))
  {
    hide SequencesUnique, MembersFit, ReservedFits, AccountedOnce;
    var v := Apply(w, SettleStep(id, action, until));
    if IsOpen(w.pool, id) {
      assert Removes(w, v, id);
      RemovalKeepsInv(w, v, id);
    } else {
      NotOpenNotThere(w.pool, id);
      assert SameReservations(w, v);
      SameKeepsInv(w, v);
    }
  }

  lemma UsageKeepsInv(w: World, id: Id, actual: int)
    requires Inv(w)
    ensures Inv(Apply(w, UsageStep(id, actual)))
  {
    hide SequencesUnique, MembersFit, ReservedFits, AccountedOnce;
    var v := Apply(w, UsageStep(id, actual));
    if actual >= 0 && IsOpen(w.pool, id) {
      assert Removes(w, v, id);
      RemovalKeepsInv(w, v, id);
    } else {
      if actual >= 0 {
        NotOpenNotThere(w.pool, id);
      }
      assert v == w;
    }
  }

  // ---------------------------------------------------------------- reconcile and expiry

  lemma ReconciledHashes(p: Pool, snapshot: int, sequence: int, now: int, renewsAt: int)
    requires HashesFit(p)
    ensures Reconcile(p, snapshot, sequence, now, renewsAt).hashes == Restrict(p.hashes, Kept(p, sequence))
    ensures Reconcile(p, snapshot, sequence, now, renewsAt).members.Keys == Kept(p, sequence)
    ensures Restrict(p.hashes, Kept(p, sequence)).Keys == Kept(p, sequence)
  {
  }

  lemma ReconcileFitsShape(w: World, snapshot: int, sequence: int, now: int, renewsAt: int)
    requires HashesFit(w.pool) && SequencesUnique(w.pool)
    ensures var p := Reconcile(w.pool, snapshot, sequence, now, renewsAt);
            HashesFit(p) && SequencesUnique(p) && MembersFit(w.(pool := p, lapsed := map[]))
  {
    ReconciledHashes(w.pool, snapshot, sequence, now, renewsAt);
    hide Pending;
  }

  lemma ReconcileFitsNumbers(w: World, snapshot: int, sequence: int, now: int, renewsAt: int)
    requires HashesFit(w.pool) && w.pool.reserveSequence >= 0 && snapshot >= 0
    ensures var p := Reconcile(w.pool, snapshot, sequence, now, renewsAt);
            NumbersFit(p) && ReservedFits(w.(pool := p, lapsed := map[]))
  {
    ReconciledHashes(w.pool, snapshot, sequence, now, renewsAt);
    SumNonNegative(Amounts(Restrict(w.pool.hashes, Kept(w.pool, sequence))));
    assert Sum(map[]) == 0;
  }

  lemma ReconcileAccounts(w: World, snapshot: int, sequence: int, now: int, renewsAt: int)
    requires HashesFit(w.pool) && AccountedOnce(w)
    ensures AccountedOnce(Apply(w, ReconcileStep(snapshot, sequence, now, renewsAt)))
  {
    ReconciledHashes(w.pool, snapshot, sequence, now, renewsAt);
    hide Pending;
    var v := Apply(w, ReconcileStep(snapshot, sequence, now, renewsAt));
    forall id | id in v.accounted ensures v.accounted[id] == 1 && id in v.issued && id !in v.pool.members {
      assert v.accounted[id] == w.accounted[id] + multiset(Dropped(w.pool, sequence))[id];
      assert id in w.accounted || w.accounted[id] == 0;
    }
  }

  lemma ReconcileKeepsInv(w: World, snapshot: int, sequence: int, now: int, renewsAt: int)
    requires Inv(w) && snapshot >= 0
    ensures Inv(Apply(w, ReconcileStep(snapshot, sequence, now, renewsAt)))
  {
    hide HashesFit, SequencesUnique, AccountedOnce, Reconcile, Dropped;
    ReconcileFitsShape(w, snapshot, sequence, now, renewsAt);
    ReconcileFitsNumbers(w, snapshot, sequence, now, renewsAt);
    ReconcileAccounts(w, snapshot, sequence, now, renewsAt);
  }

  lemma ExpireFitsSum(w: World, id: Id)
    requires ReservedFits(w) && id in w.pool.hashes && id !in w.lapsed
    ensures ReservedFits(Apply(w, ExpireStep(id)))
  {
    SumRemove(Amounts(w.pool.hashes), id);
    assert Amounts(w.pool.hashes) - {id} == Amounts(w.pool.hashes - {id});
    SumAdd(w.lapsed, id, w.pool.hashes[id].amount);
  }

  lemma ExpireKeepsInv(w: World, id: Id)
    requires Inv(w) && id in w.pool.hashes
    ensures Inv(Apply(w, ExpireStep(id)))
  {
    hide SequencesUnique, AccountedOnce, ReservedFits;
    var v := Apply(w, ExpireStep(id));
    assert id in w.pool.hashes.Keys;
    ExpireFitsSum(w, id);
    assert v.pool.hashes.Keys == w.pool.hashes.Keys - {id};
    assert v.lapsed.Keys == w.lapsed.Keys + {id};
    SameMembers(w, v);
  }

  lemma SameMembers(w: World, v: World)
    requires SequencesUnique(w.pool) && AccountedOnce(w)
    requires v.pool.members == w.pool.members && v.pool.reserveSequence == w.pool.reserveSequence
    requires v.issued == w.issued && v.accounted == w.accounted
    ensures SequencesUnique(v.pool) && AccountedOnce(v)
  {
  }

  lemma StepKeepsInv(w: World, step: Step)
    requires Inv(w) && Enabled(w, step)
    ensures Inv(Apply(w, step))
  {
    match step {
      case ReserveStep(id, amount) => ReserveKeepsInv(w, id, amount);
      case SettleStep(id, action, until) => SettleKeepsInv(w, id, action, until);
      case UsageStep(id, actual) => UsageKeepsInv(w, id, actual);
      case ReconcileStep(snapshot, sequence, now, renewsAt) => ReconcileKeepsInv(w, snapshot, sequence, now, renewsAt);
      case ExpireStep(id) => ExpireKeepsInv(w, id);
    }
  }

  // ---------------------------------------------------------------- runs

  ghost predicate Possible(w: World, steps: seq<Step>)
    decreases |steps|
  {
    steps == [] || (Enabled(w, steps[0]) && Possible(Apply(w, steps[0]), steps[1..]))
  }

  ghost function Run(w: World, steps: seq<Step>): World
    decreases |steps|
  {
    if steps == [] then w else Run(Apply(w, steps[0]), steps[1..])
  }

  /** Main result 1: every reachable pool satisfies the invariant. */
  lemma {:induction false} RunKeepsInv(w: World, steps: seq<Step>)
    requires Inv(w) && Possible(w, steps)
    ensures Inv(Run(w, steps))
    decreases |steps|
  {
    if steps != [] {
      StepKeepsInv(w, steps[0]);
      RunKeepsInv(Apply(w, steps[0]), steps[1..]);
    }
  }

  lemma StartSatisfiesInv()
    ensures Inv(START) && Capture(START.pool) == 0
  {
    assert Sum(map[]) == 0;
  }

  // ---------------------------------------------------------------- conservation

  /** Credits the pool stands for: free plus reserved. */
  function Total(p: Pool): int {
    Balance(p) + p.reserved
  }

  /**
    Credits that leave the pool for good in a step. A usage settlement is charged
    what was used, as far as the estimate and the free credits cover it;
    disabling forfeits the free credits and a returned estimate; nothing else is charged.
   */
  function Charge(p: Pool, step: Step): int {
    match step
    case UsageStep(id, actual) =>
      if actual >= 0 && IsOpen(p, id) then Min(actual, p.hashes[id].amount + Balance(p)) else 0
    case SettleStep(id, ToDisabled, _) => Balance(p) + (if IsOpen(p, id) then p.hashes[id].amount else 0)
    case _ => 0
  }

  function Charges(steps: seq<(Pool, Step)>): int {
    if steps == [] then 0 else Charge(steps[0].0, steps[0].1) + Charges(steps[1..])
  }

  /** The pools the steps of a run act on. */
  ghost function Trace(w: World, steps: seq<Step>): seq<(Pool, Step)>
    decreases |steps|
  {
    if steps == [] then [] else [(w.pool, steps[0])] + Trace(Apply(w, steps[0]), steps[1..])
  }

  lemma StepConserves(w: World, step: Step)
    requires Inv(w) && Enabled(w, step) && !step.ReconcileStep?
    ensures Total(Apply(w, step).pool) + Charge(w.pool, step) == Total(w.pool)
    ensures Charge(w.pool, step) >= 0
  {
    hide HashesFit, SequencesUnique, MembersFit, ReservedFits, AccountedOnce;
    match step
    case SettleStep(id, action, until) => SettleConserves(w, id, action, until);
    case UsageStep(id, actual) => UsageConserves(w, id, actual);
    case _ =>
  }

  lemma OpenAmount(p: Pool, id: Id)
    requires HashesFit(p) && IsOpen(p, id)
    ensures p.hashes[id].amount >= 1 && !p.hashes[id].reconciled
  {
  }

  lemma SettleConserves(w: World, id: Id, action: Action, until: int)
    requires Inv(w)
    ensures var p := Settle(w.pool, id, action, until);
            var charge := Charge(w.pool, SettleStep(id, action, until));
            Total(p) + charge == Total(w.pool) && charge >= 0
  {
    hide HashesFit, SequencesUnique, MembersFit, ReservedFits, AccountedOnce;
    if IsOpen(w.pool, id) {
      OpenAmount(w.pool, id);
    }
  }

  lemma UsageConserves(w: World, id: Id, actual: int)
    requires Inv(w)
    ensures var p := ActualUsage(w.pool, id, actual);
            var charge := Charge(w.pool, UsageStep(id, actual));
            Total(p) + charge == Total(w.pool) && charge >= 0
  {
    hide HashesFit, SequencesUnique, MembersFit, ReservedFits, AccountedOnce;
    if IsOpen(w.pool, id) {
      OpenAmount(w.pool, id);
    }
  }

  /**
    Main result 2: between reconciles credits are conserved. Duplicate, late and
    lost settlements included, what the pool stands for falls by exactly the
    charges and never rises.
   */
  lemma {:induction false} RunConserves(w: World, steps: seq<Step>)
    requires Inv(w) && Possible(w, steps)
    requires forall i :: 0 <= i < |steps| ==> !steps[i].ReconcileStep?
    ensures Total(Run(w, steps).pool) + Charges(Trace(w, steps)) == Total(w.pool)
    ensures Total(Run(w, steps).pool) <= Total(w.pool)
    decreases |steps|
  {
    if steps != [] {
      StepConserves(w, steps[0]);
      StepKeepsInv(w, steps[0]);
      RunConserves(Apply(w, steps[0]), steps[1..]);
      assert Trace(w, steps)[1..] == Trace(Apply(w, steps[0]), steps[1..]);
    }
  }

  /** Main result 3: right after a reconcile the pool stands for the snapshot or, if larger, the pending sum. */
  lemma ReconcileMintsNothing(w: World, snapshot: int, sequence: int, now: int, renewsAt: int)
    requires Inv(w) && snapshot >= 0
    ensures var p := Reconcile(w.pool, snapshot, sequence, now, renewsAt);
            && Total(p) == Max(snapshot, Pending(w.pool, sequence))
            && p.reserved == Pending(w.pool, sequence) >= 0
            && (p.disabled <==> snapshot == 0)
  {
    hide SequencesUnique, MembersFit, ReservedFits, AccountedOnce;
    var kept := Restrict(w.pool.hashes, Kept(w.pool, sequence));
    SumNonNegative(Amounts(kept));
  }

  /** Refunding a reservation undoes it except for the sequence number, whatever is done to it again afterwards. */
  lemma RefundUndoesReserve(p: Pool, id: Id, amount: int, action: Action, until: int, actual: int)
    requires p.credits.Some? && id !in p.members && id !in p.hashes
    ensures var q := Settle(Reserve(p, id, amount), id, ToRefund, until);
            && q == p.(reserveSequence := p.reserveSequence + 1)
            && Settle(q, id, ToRefund, until) == q && ActualUsage(q, id, actual) == q && Expire(q, id) == q
  {
    var r := Reserve(p, id, amount);
    assert r.members - {id} == p.members && r.hashes - {id} == p.hashes;
    assert p.hashes - {id} == p.hashes;
  }

  // ---------------------------------------------------------------- capture and reconcile

  /** Sequences above the captured one belong exactly to reservations made since. */
  predicate SplitBySequence(w: World, before: set<Id>, captured: int) {
    && captured <= w.pool.reserveSequence && before <= w.issued
    && forall id :: id in w.pool.members ==> (w.pool.members[id] > captured <==> id !in before)
  }

  lemma {:induction false} RunKeepsSplit(w: World, steps: seq<Step>, before: set<Id>, captured: int)
    requires Inv(w) && Possible(w, steps) && SplitBySequence(w, before, captured)
    ensures SplitBySequence(Run(w, steps), before, captured)
    decreases |steps|
  {
    if steps != [] {
      StepKeepsInv(w, steps[0]);
      StepKeepsSplit(w, steps[0], before, captured);
      RunKeepsSplit(Apply(w, steps[0]), steps[1..], before, captured);
    }
  }

  lemma StepKeepsSplit(w: World, step: Step, before: set<Id>, captured: int)
    requires Inv(w) && Enabled(w, step) && SplitBySequence(w, before, captured)
    ensures SplitBySequence(Apply(w, step), before, captured)
  {
    hide Pending, HashesFit, SequencesUnique, MembersFit, ReservedFits, AccountedOnce;
  }

  /** The open reservations of `w` that were not yet made in `earlier`. */
  ghost function MadeSince(w: World, earlier: World): map<Id, Hash> {
    map id | id in w.pool.hashes && id !in earlier.issued :: w.pool.hashes[id]
  }

  /**
    Main result 4: whatever happens between a capture and the reconcile that uses
    it (other reconciles included), the reconcile keeps exactly the open
    reservations made after the capture and leaves the snapshot minus their
    amounts, or zero.
   */
  lemma ReconcileAfterCapture(w: World, steps: seq<Step>, snapshot: int, now: int, renewsAt: int)
    requires Inv(w) && Possible(w, steps) && snapshot >= 0
    ensures var end := Run(w, steps);
            var p := Reconcile(end.pool, snapshot, Capture(w.pool), now, renewsAt);
            && p.hashes == MadeSince(end, w)
            && p.members.Keys == MadeSince(end, w).Keys
            && p.credits == Some(Max(0, snapshot - Sum(Amounts(MadeSince(end, w)))))
            && p.reserved == Sum(Amounts(MadeSince(end, w)))
  {
    hide HashesFit, SequencesUnique, MembersFit, ReservedFits, AccountedOnce, Reconcile, Sum, MadeSince;
    StartsSplit(w);
    RunKeepsInv(w, steps);
    RunKeepsSplit(w, steps, w.issued, Capture(w.pool));
    KeptAreMadeSince(Run(w, steps), w, snapshot, now, renewsAt);
  }

  lemma StartsSplit(w: World)
    requires Inv(w)
    ensures SplitBySequence(w, w.issued, Capture(w.pool))
  {
    hide HashesFit, MembersFit, ReservedFits;
    forall id | id in w.pool.members ensures id in w.issued {
      assert id in w.pool.members.Keys;
    }
  }

  lemma KeptAreMadeSince(end: World, w: World, snapshot: int, now: int, renewsAt: int)
    requires HashesFit(end.pool) && SplitBySequence(end, w.issued, Capture(w.pool))
    ensures var p := Reconcile(end.pool, snapshot, Capture(w.pool), now, renewsAt);
            && p.hashes == MadeSince(end, w)
            && p.members.Keys == MadeSince(end, w).Keys
            && p.credits == Some(Max(0, snapshot - Sum(Amounts(MadeSince(end, w)))))
            && p.reserved == Sum(Amounts(MadeSince(end, w)))
  {
    ReconciledHashes(end.pool, snapshot, Capture(w.pool), now, renewsAt);
    assert Restrict(end.pool.hashes, Kept(end.pool, Capture(w.pool))) == MadeSince(end, w);
  }

  /**
    Main result 5: over a whole run no reservation is accounted for twice by settling, usage and
    reconciling together.
   */
  lemma NoDoubleAccounting(steps: seq<Step>, id: Id)
    requires Possible(START, steps)
    ensures Run(START, steps).accounted[id] <= 1
    ensures Run(START, steps).accounted[id] == 1 ==> id !in Run(START, steps).pool.hashes
  {
    hide HashesFit, SequencesUnique, ReservedFits, Apply;
    StartSatisfiesInv();
    RunKeepsInv(START, steps);
    var end := Run(START, steps);
    assert id in end.pool.hashes ==> id in end.pool.hashes.Keys;
    assert id in end.pool.members.Keys ==> id in end.pool.members;
    assert id in Run(START, steps).accounted || Run(START, steps).accounted[id] == 0;
  }
}
