/**
  The Redis ledger of all keys: each script of `RedisCreditLedgerStore` as one
  atomic method that reads and writes hash fields and the sorted set in place.
 */
module CreditLedger {
  import opened Common
  import opened LedgerSpec
  import KeySelection

  type KeyId = string

  datatype ReserveResult = Reserved(index: nat, sequence: int, reservation: Id) | NoCapacity | Uninitialized

  /** A pool that was never written reads as empty. */
  function PoolIn(pools: map<KeyId, Pool>, key: KeyId): Pool {
    if key in pools then pools[key] else EMPTY_POOL
  }

  /** What the selection loop reads of a pool; a stored renewal of 0 means unknown. */
  function ViewOf(p: Pool, now: int): KeySelection.View {
    KeySelection.View(p.credits,
                      if p.renewsAt == 0 then None else Some(p.renewsAt),
                      p.disabled || p.cooldownUntil > now)
  }

  function ViewsIn(pools: map<KeyId, Pool>, keys: seq<KeyId>, now: int): seq<KeySelection.View> {
    seq(|keys|, i requires 0 <= i < |keys| => ViewOf(PoolIn(pools, keys[i]), now))
  }

  /** Each of the first in line has an equal share of the random numbers. */
  ghost predicate PickedAtRandom(first: set<nat>, random: real, index: nat) {
    exists ties :: KeySelection.Lists(ties, first) && KeySelection.Picks(ties, random, index)
  }

  class CreditLedger {
    var pools: map<KeyId, Pool>

    constructor ()
      ensures pools == map[]
    {
      pools := map[];
    }

    function PoolOf(key: KeyId): Pool
      reads this
    {
      PoolIn(pools, key)
    }

    /**
      RESERVE_SCRIPT: one pool among `keys` takes the reservation, and only if
      it is among the first in line.
     */
    method Reserve(keys: seq<KeyId>, amount: int, now: int, random: real, ids: seq<Id>) returns (result: ReserveResult)
      requires amount >= 1 && |ids| == |keys| && 0.0 <= random < 1.0
      modifies this
      ensures result.Uninitialized? <==> forall i :: 0 <= i < |keys| ==> old(PoolOf(keys[i])).credits.None?
      ensures !result.Reserved? ==> pools == old(pools)
      ensures !result.Reserved? ==>
              KeySelection.TieSet(KeySelection.LuaRanks(ViewsIn(old(pools), keys, now), amount)) == {}
      ensures result.Reserved? ==>
                && result.index < |keys|
                && result.index in KeySelection.TieSet(KeySelection.LuaRanks(ViewsIn(old(pools), keys, now), amount))
                && PickedAtRandom(KeySelection.TieSet(KeySelection.LuaRanks(ViewsIn(old(pools), keys, now), amount)),
                                  random, result.index)
                && result.reservation == ids[result.index]
                && Balance(old(PoolOf(keys[result.index]))) >= amount
                && !old(PoolOf(keys[result.index])).disabled && old(PoolOf(keys[result.index])).cooldownUntil <= now
                && result.sequence == old(PoolOf(keys[result.index])).reserveSequence + 1
                && pools == old(pools)[keys[result.index] :=
                     LedgerSpec.Reserve(old(PoolOf(keys[result.index])), ids[result.index], amount)]
    {
      var views := ViewsIn(pools, keys, now);
      ghost var ranks := KeySelection.LuaRanks(views, amount);
      var ties, initialized := KeySelection.LuaScan(views, amount);
      assert forall i :: 0 <= i < |keys| ==> views[i].credits == PoolOf(keys[i]).credits;
      if ties == [] {
        assert KeySelection.TieSet(ranks) == {};
        return if initialized then NoCapacity else Uninitialized;
      }
      var selected := KeySelection.PickTie(ties, random);
      assert selected in KeySelection.TieSet(ranks);
      assert views[selected].credits.Some?;
      var pool, reservation := PoolOf(keys[selected]), ids[selected];
      pool := pool.(reserveSequence := pool.reserveSequence + 1);
      var sequence := pool.reserveSequence;
      pool := pool.(credits := Some(Balance(pool) - amount));
      pool := pool.(reserved := pool.reserved + amount);
      pool := pool.(hashes := pool.hashes[reservation := Hash(amount, sequence, Open, false)]);
      pool := pool.(members := pool.members[reservation := sequence]);
      pools := pools[keys[selected] := pool];
      return Reserved(selected, sequence, reservation);
    }

    /** CAPTURE_SCRIPT. */
    method Capture(key: KeyId) returns (sequence: int)
      ensures sequence == LedgerSpec.Capture(PoolOf(key))
    {
      sequence := PoolOf(key).reserveSequence;
    }

    /** SETTLE_SCRIPT. */
    method Settle(key: KeyId, reservation: Id, action: Action, cooldownUntil: int) returns (settled: bool)
      modifies this
      ensures settled == IsOpen(old(PoolOf(key)), reservation)
      ensures pools == old(pools)[key := LedgerSpec.Settle(old(PoolOf(key)), reservation, action, cooldownUntil)]
    {
      var pool := PoolOf(key);
      ghost var before := pool;
      settled := false;
      if reservation in pool.hashes && pool.hashes[reservation].state == Open {
        var amount := pool.hashes[reservation].amount;
        var reconciled := pool.hashes[reservation].reconciled;
        pool := pool.(members := pool.members - {reservation});
        pool := pool.(reserved := pool.reserved - amount);
        if !reconciled {
          pool := pool.(credits := Some(Balance(pool) + amount));
        }
        settled := true;
      }
      pool := pool.(hashes := pool.hashes - {reservation});
      if action == ToCooldown {
        if cooldownUntil > pool.cooldownUntil {
          pool := pool.(cooldownUntil := cooldownUntil);
        }
      }
      if action == ToDisabled {
        pool := pool.(disabled := true, credits := Some(0), cooldownUntil := 0);
      }
      pools := pools[key := pool];
    }

    /** ACTUAL_USAGE_SCRIPT. */
    method ActualUsage(key: KeyId, reservation: Id, actual: int) returns (settled: bool)
      modifies this
      ensures settled == (actual >= 0 && IsOpen(old(PoolOf(key)), reservation))
      ensures pools == old(pools)[key := LedgerSpec.ActualUsage(old(PoolOf(key)), reservation, actual)]
    {
      var pool := PoolOf(key);
      settled := false;
      if actual >= 0 {
        if !(reservation in pool.hashes && pool.hashes[reservation].state == Open) {
          pool := pool.(hashes := pool.hashes - {reservation});
        } else {
          var estimated := pool.hashes[reservation].amount;
          var delta := actual - estimated;
          if delta > 0 {
            var deduction := Min(delta, Max(0, Balance(pool)));
            if deduction > 0 {
              pool := pool.(credits := Some(Balance(pool) - deduction));
            }
          } else if delta < 0 {
            pool := pool.(credits := Some(Balance(pool) - delta));
          }
          pool := pool.(reserved := pool.reserved - estimated);
          pool := pool.(members := pool.members - {reservation});
          pool := pool.(hashes := pool.hashes - {reservation});
          settled := true;
        }
      }
      pools := pools[key := pool];
    }

    /** RECONCILE_SCRIPT. */
    method Reconcile(key: KeyId, snapshot: int, snapshotSequence: int, now: int, renewsAt: int) returns (credits: int)
      modifies this
      ensures pools == old(pools)[key :=
                LedgerSpec.Reconcile(old(PoolOf(key)), snapshot, snapshotSequence, now, renewsAt)]
      ensures Some(credits) == pools[key].credits
    {
      var pool, pending := Sweep(PoolOf(key), snapshotSequence);
      credits := snapshot - pending;
      if credits < 0 {
        credits := 0;
      }
      var cooldownUntil := pool.cooldownUntil;
      if cooldownUntil <= now {
        cooldownUntil := 0;
      }
      pool := pool.(credits := Some(credits), disabled := snapshot <= 0, cooldownUntil := cooldownUntil,
                    reserved := pending, renewsAt := renewsAt);
      pools := pools[key := pool];
    }

    /** The loop of RECONCILE_SCRIPT over the sorted set: sums what stays open and deletes the rest. */
    static method Sweep(p: Pool, snapshotSequence: int) returns (pool: Pool, pending: int)
      ensures pool == Swept(p, Kept(p, snapshotSequence))
      ensures pending == Pending(p, snapshotSequence)
    {
      hide Swept, Sum, Amounts, Restrict;
      ghost var kept := Kept(p, snapshotSequence);
      NothingSwept(p, kept);
      pool, pending := p, 0;
      var ids := p.members.Keys;
      while ids != {}
        invariant ids <= p.members.Keys
        invariant pool == Swept(p, ids + kept)
        invariant pending == Sum(Amounts(Restrict(p.hashes, kept - ids)))
        decreases ids
      {
        var reservation :| reservation in ids;
        ghost var before := ids;
        ids := ids - {reservation};
        OneLess(before, kept, reservation);
        StillThere(p, before + kept, reservation);
        if reservation in pool.hashes && pool.hashes[reservation].state == Open
           && pool.hashes[reservation].sequence > snapshotSequence {
          pending := pending + pool.hashes[reservation].amount;
          AddKept(p, kept - before, reservation);
        } else {
          RemoveDead(p, before + kept, reservation);
          pool := pool.(members := pool.members - {reservation});
          pool := pool.(hashes := pool.hashes - {reservation});
        }
      }
      assert kept - ids == kept && ids + kept == kept;
    }

    static lemma OneLess(ids: set<Id>, kept: set<Id>, id: Id)
      requires id in ids
      ensures var left := ids - {id};
              if id in kept then kept - left == kept - ids + {id} && left + kept == ids + kept
              else kept - left == kept - ids && left + kept == ids + kept - {id}
    {
    }

    static lemma NothingSwept(p: Pool, kept: set<Id>)
      requires kept <= p.members.Keys
      ensures Swept(p, p.members.Keys + kept) == p
      ensures Sum(Amounts(Restrict(p.hashes, kept - p.members.Keys))) == 0
    {
      var all := p.members.Keys + kept;
      assert Swept(p, all).members == p.members && Swept(p, all).hashes == p.hashes;
      assert kept - p.members.Keys == {};
      assert Amounts(Restrict(p.hashes, {})) == map[];
    }

    static lemma StillThere(p: Pool, alive: set<Id>, id: Id)
      requires id in alive
      ensures id in Swept(p, alive).hashes <==> id in p.hashes
      ensures id in p.hashes ==> Swept(p, alive).hashes[id] == p.hashes[id]
    {
    }

    static lemma RemoveDead(p: Pool, alive: set<Id>, id: Id)
      requires id in p.members
      ensures var q := Swept(p, alive);
              q.(members := q.members - {id}, hashes := q.hashes - {id}) == Swept(p, alive - {id})
    {
      var q, r := Swept(p, alive), Swept(p, alive - {id});
      assert q.members - {id} == r.members && q.hashes - {id} == r.hashes;
    }

    static lemma AddKept(p: Pool, done: set<Id>, id: Id)
      requires id !in done && id in p.hashes
      ensures Sum(Amounts(Restrict(p.hashes, done + {id})))
              == Sum(Amounts(Restrict(p.hashes, done))) + p.hashes[id].amount
    {
      SumAdd(Amounts(Restrict(p.hashes, done)), id, p.hashes[id].amount);
      assert Amounts(Restrict(p.hashes, done + {id})) == Amounts(Restrict(p.hashes, done))[id := p.hashes[id].amount];
    }
  }
}
