/**
  One Cloud key's credit pool in the Redis ledger: the pool hash, its sorted set
  of reservations and their hashes. Each script is one atomic step.
 */
module LedgerSpec {
  import opened Common

  type Id = nat

  datatype HashState = Open | Refund | Cooldown | Disabled | Reconciled

  /** A reservation's hash. */
  datatype Hash = Hash(amount: int, sequence: int, state: HashState, reconciled: bool)

  /** `credits` is absent until the first reconcile; a missing number reads as 0. `members` is the sorted set. */
  datatype Pool = Pool(
    credits: Option<int>,
    reserved: int,
    reserveSequence: int,
    disabled: bool,
    cooldownUntil: int,
    renewsAt: int,
    members: map<Id, int>,
    hashes: map<Id, Hash>)

  const EMPTY_POOL := Pool(None, 0, 0, false, 0, 0, map[], map[])

  datatype Action = ToRefund | ToCooldown | ToDisabled

  function Balance(p: Pool): int {
    if p.credits.Some? then p.credits.value else 0
  }

  predicate IsOpen(p: Pool, id: Id) {
    id in p.hashes && p.hashes[id].state == Open
  }

  /** RESERVE, once this pool has been selected. */
  function Reserve(p: Pool, id: Id, amount: int): Pool {
    var sequence := p.reserveSequence + 1;
    p.(reserveSequence := sequence,
       credits := Some(Balance(p) - amount),
       reserved := p.reserved + amount,
       hashes := p.hashes[id := Hash(amount, sequence, Open, false)],
       members := p.members[id := sequence])
  }

  /** CAPTURE. */
  function Capture(p: Pool): int {
    p.reserveSequence
  }

  /** SETTLE: gives an open estimate back, then applies the cooldown or disables the key. */
  function Settle(p: Pool, id: Id, action: Action, cooldownUntil: int): Pool {
    var q :=
      if IsOpen(p, id) then
        p.(members := p.members - {id},
           reserved := p.reserved - p.hashes[id].amount,
           credits := if p.hashes[id].reconciled then p.credits else Some(Balance(p) + p.hashes[id].amount))
      else p;
    var r := q.(hashes := q.hashes - {id});
    match action
    case ToRefund => r
    case ToCooldown => r.(cooldownUntil := Max(r.cooldownUntil, cooldownUntil))
    case ToDisabled => r.(disabled := true, credits := Some(0), cooldownUntil := 0)
  }

  /** ACTUAL_USAGE: replaces an open estimate by what was really used, never below zero credits. */
  function ActualUsage(p: Pool, id: Id, actual: int): Pool {
    if actual < 0 then p
    else if !IsOpen(p, id) then p.(hashes := p.hashes - {id})
    else
      var estimated := p.hashes[id].amount;
      var delta := actual - estimated;
      var deduction := Min(delta, Max(0, Balance(p)));
      p.(credits := if delta > 0 then (if deduction > 0 then Some(Balance(p) - deduction) else p.credits)
                    else if delta < 0 then Some(Balance(p) - delta) else p.credits,
         reserved := p.reserved - estimated,
         members := p.members - {id},
         hashes := p.hashes - {id})
  }

  /** The reservations a reconcile keeps: open ones made after the snapshot's sequence. */
  function Kept(p: Pool, snapshotSequence: int): set<Id> {
    set id | id in p.members && IsOpen(p, id) && p.hashes[id].sequence > snapshotSequence
  }

  function Amounts(hashes: map<Id, Hash>): map<Id, int> {
    map id | id in hashes :: hashes[id].amount
  }

  function Restrict(hashes: map<Id, Hash>, ids: set<Id>): map<Id, Hash> {
    map id | id in hashes && id in ids :: hashes[id]
  }

  ghost function Sum(m: map<Id, int>): int
    decreases |m|
  {
    if m == map[] then 0
    else
      var id :| id in m;
      m[id] + Sum(m - {id})
  }

  ghost function Pending(p: Pool, snapshotSequence: int): int {
    Sum(Amounts(Restrict(p.hashes, Kept(p, snapshotSequence))))
  }

  /** The pool with only the `alive` members and their hashes left in the sorted set. */
  function Swept(p: Pool, alive: set<Id>): Pool {
    p.(members := map id | id in p.members && id in alive :: p.members[id],
       hashes := map id | id in p.hashes && (id in alive || id !in p.members) :: p.hashes[id])
  }

  /** RECONCILE with an authoritative balance taken after `snapshotSequence` was captured. */
  ghost function Reconcile(p: Pool, snapshot: int, snapshotSequence: int, now: int, renewsAt: int): Pool {
    var kept := Kept(p, snapshotSequence);
    var pending := Pending(p, snapshotSequence);
    Swept(p, kept).(
      credits := Some(Max(0, snapshot - pending)),
      reserved := pending,
      disabled := snapshot <= 0,
      cooldownUntil := if p.cooldownUntil <= now then 0 else p.cooldownUntil,
      renewsAt := renewsAt)
  }

  /** A reservation hash's TTL elapses; the pool and its sorted set do not notice. */
  function Expire(p: Pool, id: Id): Pool {
    p.(hashes := p.hashes - {id})
  }

  // ---------------------------------------------------------------- sums

  lemma {:induction false} SumRemove(m: map<Id, int>, id: Id)
    requires id in m
    ensures Sum(m) == m[id] + Sum(m - {id})
    decreases |m|
  {
    var first :| first in m && Sum(m) == m[first] + Sum(m - {first});
    if first != id {
      SumRemove(m - {first}, id);
      SumRemove(m - {id}, first);
      assert m - {first} - {id} == m - {id} - {first};
    }
  }

  lemma SumAdd(m: map<Id, int>, id: Id, amount: int)
    requires id !in m
    ensures Sum(m[id := amount]) == Sum(m) + amount
  {
    SumRemove(m[id := amount], id);
    assert m[id := amount] - {id} == m;
  }

  lemma {:induction false} SumNonNegative(m: map<Id, int>)
    requires forall id :: id in m ==> m[id] >= 0
    ensures Sum(m) >= 0
    decreases |m|
  {
    if m != map[] {
      var id :| id in m && Sum(m) == m[id] + Sum(m - {id});
      SumNonNegative(m - {id});
    }
  }
}
