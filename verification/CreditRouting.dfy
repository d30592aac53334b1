/**
  The credit service of one instance: what it remembers about keys locally, the
  reservation that goes to Redis or stays local, and what a response teaches it.
 */
module CreditRouting {
  import opened Common
  import opened LedgerSpec
  import opened CreditLedger
  import KeySelection

  const CREDIT_KEY_COOLDOWN_MS := 30_000
  const REDIS_FAILURE_COOLDOWN_MS := 5_000

  datatype LocalPool = LocalPool(renewsAt: Option<int>, credits: Option<int>)

  datatype Candidate = Candidate(key: string, keyId: KeyId)

  datatype Source = FromRedis(reservation: Id) | FromMemory

  datatype CreditReservation = CreditReservation(key: string, keyId: KeyId, amount: int, source: Source)

  /** What the instance remembers: cooldowns, exhausted keys and last known balances. */
  datatype Memory = Memory(cooldownUntil: map<KeyId, int>, disabled: set<KeyId>, pools: map<KeyId, LocalPool>)

  // ---------------------------------------------------------------- what memory allows

  function CooldownOf(m: Memory, id: KeyId): int {
    if id in m.cooldownUntil then m.cooldownUntil[id] else 0
  }

  predicate Usable(m: Memory, id: KeyId, now: int) {
    id !in m.disabled && CooldownOf(m, id) <= now
  }

  function Candidates(m: Memory, keyIdOf: string -> KeyId, keys: seq<string>, excluded: set<KeyId>,
                      now: int): seq<Candidate> {
    if keys == [] then []
    else
      var id := keyIdOf(keys[0]);
      (if id !in excluded && Usable(m, id, now) then [Candidate(keys[0], id)] else [])
        + Candidates(m, keyIdOf, keys[1..], excluded, now)
  }

  lemma {:induction false} CandidatesAreUsable(m: Memory, keyIdOf: string -> KeyId, keys: seq<string>,
                                               excluded: set<KeyId>, now: int)
    ensures |Candidates(m, keyIdOf, keys, excluded, now)| <= |keys|
    ensures forall c :: c in Candidates(m, keyIdOf, keys, excluded, now) <==>
              c.key in keys && c.keyId == keyIdOf(c.key) && c.keyId !in excluded && Usable(m, c.keyId, now)
  {
    if keys != [] {
      CandidatesAreUsable(m, keyIdOf, keys[1..], excluded, now);
      assert keys == [keys[0]] + keys[1..];
    }
  }

  lemma NextCandidate(m: Memory, keyIdOf: string -> KeyId, keys: seq<string>, i: nat, excluded: set<KeyId>, now: int,
                      before: seq<Candidate>)
    requires i < |keys|
    ensures var c := Candidate(keys[i], keyIdOf(keys[i]));
            before + Candidates(m, keyIdOf, keys[i..], excluded, now)
              == (if c.keyId !in excluded && Usable(m, c.keyId, now) then before + [c] else before)
                 + Candidates(m, keyIdOf, keys[i + 1..], excluded, now)
  {
    assert keys[i..][1..] == keys[i + 1..];
  }

  lemma NoCandidateLeft(m: Memory, keyIdOf: string -> KeyId, keys: seq<string>, excluded: set<KeyId>, now: int,
                        before: seq<Candidate>)
    ensures before + Candidates(m, keyIdOf, keys[|keys|..], excluded, now) == before
  {
  }

  function LocalView(m: Memory, id: KeyId, now: int): KeySelection.View {
    KeySelection.View(
      if id in m.pools then m.pools[id].credits else None,
      if id in m.pools then m.pools[id].renewsAt else None,
      !Usable(m, id, now))
  }

  function LocalViews(m: Memory, candidates: seq<Candidate>, now: int): seq<KeySelection.View> {
    seq(|candidates|, i requires 0 <= i < |candidates| => LocalView(m, candidates[i].keyId, now))
  }

  /** Math.max(1, Math.ceil(amount)). */
  function Normalized(amount: real): int {
    Max(1, -((-amount).Floor))
  }

  /** The least whole number of credits that covers the amount, and at least one. */
  lemma NormalizedCovers(amount: real)
    ensures var n := Normalized(amount);
            n >= 1 && n as real >= amount && (n == 1 || (n - 1) as real < amount)
  {
  }

  // ---------------------------------------------------------------- what changes memory

  function Deduct(m: Memory, id: KeyId, amount: int): Memory {
    if id in m.pools && m.pools[id].credits.Some?
    then m.(pools := m.pools[id := m.pools[id].(credits := Some(Max(0, m.pools[id].credits.value - amount)))])
    else m
  }

  function Responded(m: Memory, id: KeyId, status: int, now: int): Memory {
    if status == 402 then m.(disabled := m.disabled + {id}, cooldownUntil := m.cooldownUntil - {id})
    else if status == 429 then m.(cooldownUntil := m.cooldownUntil[id := now + CREDIT_KEY_COOLDOWN_MS])
    else m
  }

  /** The memory part of `refreshCreditUsage` once the balance is known. */
  function Refreshed(m: Memory, id: KeyId, remaining: int, renewsAt: Option<int>, now: int): Memory {
    var m1 := m.(pools := m.pools[id := LocalPool(renewsAt, Some(remaining))]);
    if remaining > 0 then
      m1.(disabled := m.disabled - {id},
          cooldownUntil := if CooldownOf(m, id) <= now then m.cooldownUntil - {id} else m.cooldownUntil)
    else m1.(disabled := m.disabled + {id})
  }

  /** What a response to a Redis reservation does to its pool. */
  function SettledPool(p: Pool, reservation: Id, status: int, actual: Option<int>, now: int): Pool {
    if status == 402 then LedgerSpec.Settle(p, reservation, ToDisabled, 0)
    else if status == 429 then LedgerSpec.Settle(p, reservation, ToCooldown, now + CREDIT_KEY_COOLDOWN_MS)
    else if status == 401 || status == 403 then LedgerSpec.Settle(p, reservation, ToRefund, 0)
    else if 200 <= status < 300 && actual.Some? && 0 <= actual.value <= MAX_SAFE_INTEGER
    then LedgerSpec.ActualUsage(p, reservation, actual.value)
    else p
  }

  predicate Settles(status: int, actual: Option<int>) {
    || status == 402 || status == 429 || status == 401 || status == 403
    || (200 <= status < 300 && actual.Some? && 0 <= actual.value <= MAX_SAFE_INTEGER)
  }

  /**
    What becomes of an open reservation: 402 takes the key out of use with
    nothing left, 429 gives the estimate back and blocks the key for thirty
    seconds, 401 and 403 give it back, a success that reports whole credits below
    2^53 is charged those as far as estimate and balance cover them, and every
    other answer leaves the estimate reserved.
   */
  lemma ResponseSettles(p: Pool, reservation: Id, status: int, actual: Option<int>, now: int)
    requires IsOpen(p, reservation) && !p.hashes[reservation].reconciled
    requires p.hashes[reservation].amount >= 1 && Balance(p) >= 0
    ensures var q := SettledPool(p, reservation, status, actual, now);
            var amount := p.hashes[reservation].amount;
            var reported := 200 <= status <= 299 && actual.Some? && 0 <= actual.value < PowerOfTwo(53);
            && (Settles(status, actual) <==> status in {401, 402, 403, 429} || reported)
            && (Settles(status, actual) ==>
                  reservation !in q.hashes && reservation !in q.members && q.reserved == p.reserved - amount)
            && (!Settles(status, actual) ==> q == p)
            && (status == 402 ==> q.disabled && q.credits == Some(0))
            && (status == 429 ==>
                  && q.credits == Some(Balance(p) + amount) && q.disabled == p.disabled
                  && q.cooldownUntil == Max(p.cooldownUntil, now + 30_000))
            && (status == 401 || status == 403 ==>
                  && q.credits == Some(Balance(p) + amount) && q.disabled == p.disabled
                  && q.cooldownUntil == p.cooldownUntil)
            && (reported ==>
                  && Balance(q) == Balance(p) + amount - Min(actual.value, amount + Balance(p))
                  && q.disabled == p.disabled && q.cooldownUntil == p.cooldownUntil)
  {
    hide PowerOfTwo;
    SafeIntegers();
  }

  // ---------------------------------------------------------------- what a reservation comes to

  /**
    What other calls do while this one waits for Redis: to memory, to the pools its script finds, to
    the pause after a failure.
   */
  datatype Meanwhile = Meanwhile(events: seq<Event>, pools: map<KeyId, Pool>, unavailableUntil: int)

  function KeyIds(candidates: seq<Candidate>): seq<KeyId> {
    seq(|candidates|, i requires 0 <= i < |candidates| => candidates[i].keyId)
  }

  /** Redis knows a balance of one of the candidates. */
  ghost predicate SomeBalance(pools: map<KeyId, Pool>, candidates: seq<Candidate>) {
    exists i :: 0 <= i < |candidates| && PoolIn(pools, candidates[i].keyId).credits.Some?
  }

  /**
    Redis gives out a candidate that is first in line there and takes the amount from its pool
    alone, or nobody can pay.
   */
  ghost predicate RedisOutcome(result: Option<CreditReservation>, candidates: seq<Candidate>, ids: seq<Id>, amount: int,
                               now: int, random: real, before: map<KeyId, Pool>, after: map<KeyId, Pool>)
  {
    var first := KeySelection.TieSet(KeySelection.LuaRanks(ViewsIn(before, KeyIds(candidates), now), amount));
    match result
    case None => first == {} && after == before
    case Some(r) =>
      exists i :: i in first && PickedAtRandom(first, random, i) && i < |candidates| && i < |ids|
               && r == CreditReservation(candidates[i].key, candidates[i].keyId, amount, FromRedis(ids[i]))
               && after == before[r.keyId := LedgerSpec.Reserve(PoolIn(before, r.keyId), ids[i], amount)]
  }

  /** Memory gives out an unblocked candidate that is first in line there and lowers its balance, or all are blocked. */
  ghost predicate LocalOutcome(result: Option<CreditReservation>, candidates: seq<Candidate>, amount: int,
                               now: int, random: real, before: Memory, after: Memory)
  {
    match result
    case None => (forall c :: c in candidates ==> !Usable(before, c.keyId, now)) && after == before
    case Some(r) =>
      var first := KeySelection.TieSet(KeySelection.LocalRanks(LocalViews(before, candidates, now)));
      && (exists i :: i in first && PickedAtRandom(first, random, i) && i < |candidates|
                   && r == CreditReservation(candidates[i].key, candidates[i].keyId, amount, FromMemory))
      && Usable(before, r.keyId, now)
      && after == Deduct(before, r.keyId, amount)
  }

  /**
    Where memory decides and nothing changed it meanwhile, an offered key is always given out, and
    it is one that was offered.
   */
  lemma MemoryFailsOpen(m: Memory, keyIdOf: string -> KeyId, keys: seq<string>, excluded: set<KeyId>,
                        now: int, later: int, random: real,
                        result: Option<CreditReservation>, amount: int, after: Memory)
    requires now <= later
    requires LocalOutcome(result, Candidates(m, keyIdOf, keys, excluded, now), amount, later, random, m, after)
    ensures result.Some? <==> exists k :: k in keys && keyIdOf(k) !in excluded && Usable(m, keyIdOf(k), now)
    ensures result.Some? ==>
              && result.value.key in keys && result.value.keyId == keyIdOf(result.value.key)
              && result.value.keyId !in excluded && Usable(m, result.value.keyId, now)
  {
    hide Candidates, KeySelection.TieSet, KeySelection.LocalRanks;
    var candidates := Candidates(m, keyIdOf, keys, excluded, now);
    CandidatesAreUsable(m, keyIdOf, keys, excluded, now);
    if result.Some? {
      assert Candidate(result.value.key, result.value.keyId) in candidates;
    } else if k :| k in keys && keyIdOf(k) !in excluded && Usable(m, keyIdOf(k), now) {
      assert Candidate(k, keyIdOf(k)) in candidates;
    }
  }

  // ---------------------------------------------------------------- the service

  class CreditRoutingService {
    const keyIdOf: string -> KeyId
    const ledger: CreditLedger
    var localCooldownUntil: map<KeyId, int>
    var localDisabled: set<KeyId>
    var localPools: map<KeyId, LocalPool>
    var redisUnavailableUntil: int

    ghost function State(): Memory
      reads this
    {
      Memory(localCooldownUntil, localDisabled, localPools)
    }

    constructor (keyIdOf: string -> KeyId, ledger: CreditLedger)
      ensures this.keyIdOf == keyIdOf && this.ledger == ledger
      ensures State() == Memory(map[], {}, map[]) && redisUnavailableUntil == 0
    {
      this.keyIdOf, this.ledger := keyIdOf, ledger;
      localCooldownUntil, localDisabled, localPools, redisUnavailableUntil := map[], {}, map[], 0;
    }

    method Filter(keys: seq<string>, excluded: set<KeyId>, now: int) returns (candidates: seq<Candidate>)
      ensures candidates == Candidates(State(), keyIdOf, keys, excluded, now)
    {
      hide Candidates;
      candidates := [];
      assert keys[0..] == keys;
      for i := 0 to |keys|
        invariant candidates + Candidates(State(), keyIdOf, keys[i..], excluded, now)
               == Candidates(State(), keyIdOf, keys, excluded, now)
      {
        var id := keyIdOf(keys[i]);
        NextCandidate(State(), keyIdOf, keys, i, excluded, now, candidates);
        if id !in excluded && id !in localDisabled
           && (if id in localCooldownUntil then localCooldownUntil[id] else 0) <= now {
          candidates := candidates + [Candidate(keys[i], id)];
        }
      }
      NoCandidateLeft(State(), keyIdOf, keys, excluded, now, candidates);
    }

    /** Other calls change memory and the ledger while this one waits for Redis. */
    method Absorb(meanwhile: Meanwhile)
      modifies this, ledger
      ensures State() == Run(old(State()), meanwhile.events)
      ensures redisUnavailableUntil == meanwhile.unavailableUntil && ledger.pools == meanwhile.pools
    {
      var m := Run(Memory(localCooldownUntil, localDisabled, localPools), meanwhile.events);
      localCooldownUntil, localDisabled, localPools := m.cooldownUntil, m.disabled, m.pools;
      redisUnavailableUntil := meanwhile.unavailableUntil;
      ledger.pools := meanwhile.pools;
    }

    /**
      `reserve`. The candidates are the offered keys that are neither excluded
      nor blocked. Where Redis is asked and knows a balance, its script decides on
      the pools it finds; otherwise memory decides, as it is once Redis failed to.
     */
    method Reserve(keys: seq<string>, amount: real, excluded: set<KeyId>, now: int, reachable: bool,
                   random: real, ids: seq<Id>, meanwhile: Meanwhile, later: int)
      returns (result: Option<CreditReservation>)
      requires |ids| == |keys| && 0.0 <= random < 1.0
      modifies this, ledger
      ensures var candidates := Candidates(old(State()), keyIdOf, keys, excluded, now);
              var asked := candidates != [] && now >= old(redisUnavailableUntil);
              var memory := if asked then Run(old(State()), meanwhile.events) else old(State());
              var pools := if asked then meanwhile.pools else old(ledger.pools);
              var unavailable := if asked then meanwhile.unavailableUntil else old(redisUnavailableUntil);
              var decided := asked && reachable && SomeBalance(pools, candidates);
              if candidates == [] then
                result.None? && State() == memory && ledger.pools == pools && redisUnavailableUntil == unavailable
              else if decided then
                && RedisOutcome(result, candidates, ids, Normalized(amount), now, random, pools, ledger.pools)
                && State() == memory && redisUnavailableUntil == (if result.Some? then 0 else unavailable)
              else
                && LocalOutcome(result, candidates, Normalized(amount), later, random, memory, State())
                && ledger.pools == pools
                && redisUnavailableUntil == (if asked then later + 5_000 else unavailable)
    {
      hide KeySelection.TieSet, KeySelection.LuaRanks, KeySelection.LocalRanks;
      hide Candidates, Normalized, Run, LocalOutcome;
      var normalized := Normalized(amount);
      NormalizedCovers(amount);
      var candidates := Filter(keys, excluded, now);
      CandidatesAreUsable(State(), keyIdOf, keys, excluded, now);
      if |candidates| == 0 {
        return None;
      }
      if now >= redisUnavailableUntil {
        Absorb(meanwhile);
        if reachable {
          var answer := AskRedis(candidates, normalized, now, random, ids[..|candidates|]);
          if !answer.Uninitialized? {
            if answer.Reserved? {
              redisUnavailableUntil := 0;
              var selected := candidates[answer.index];
              return Some(CreditReservation(selected.key, selected.keyId, normalized, FromRedis(answer.reservation)));
            }
            return None;
          }
        }
        redisUnavailableUntil := later + REDIS_FAILURE_COOLDOWN_MS;
      }
      result := ReserveLocally(candidates, normalized, later, random);
    }

    /** The script on the candidates' pools as it finds them. */
    method AskRedis(candidates: seq<Candidate>, amount: int, now: int, random: real, ids: seq<Id>)
      returns (answer: ReserveResult)
      requires amount >= 1 && |ids| == |candidates| && 0.0 <= random < 1.0
      modifies ledger
      ensures answer.Uninitialized? <==> !SomeBalance(old(ledger.pools), candidates)
      ensures answer.Uninitialized? ==> ledger.pools == old(ledger.pools)
      ensures answer.NoCapacity? ==>
                RedisOutcome(None, candidates, ids, amount, now, random, old(ledger.pools), ledger.pools)
      ensures answer.Reserved? ==>
                && answer.index < |candidates|
                && RedisOutcome(Some(CreditReservation(candidates[answer.index].key,
                                                       candidates[answer.index].keyId, amount,
                                                       FromRedis(answer.reservation))),
                                candidates, ids, amount, now, random, old(ledger.pools), ledger.pools)
    {
      hide KeySelection.TieSet, KeySelection.LuaRanks;
      var keyIds := KeyIds(candidates);
      answer := ledger.Reserve(keyIds, amount, now, random, ids);
      assert forall i :: 0 <= i < |candidates| ==> keyIds[i] == candidates[i].keyId;
    }

    /** `reserveLocally`: the candidates may have been blocked since they were chosen, so it looks again. */
    method ReserveLocally(candidates: seq<Candidate>, amount: int, now: int, random: real)
      returns (result: Option<CreditReservation>)
      requires 0.0 <= random < 1.0
      modifies this`localPools
      ensures LocalOutcome(result, candidates, amount, now, random, old(State()), State())
    {
      var views := seq(|candidates|, i requires 0 <= i < |candidates| reads this =>
        ViewOfPool(candidates[i].keyId, now));
      assert views == LocalViews(State(), candidates, now);
      ghost var ranks := KeySelection.LocalRanks(views);
      var best := KeySelection.LocalScan(views);
      NoneUsable(State(), candidates, now);
      if best == [] {
        assert KeySelection.TieSet(ranks) == {};
        return None;
      }
      assert best[0] in KeySelection.TieSet(ranks);
      var index := KeySelection.PickTie(best, random);
      assert index in KeySelection.TieSet(ranks);
      var selected := candidates[index];
      if selected.keyId in localPools && localPools[selected.keyId].credits.Some? {
        var pool := localPools[selected.keyId];
        localPools := localPools[selected.keyId := pool.(credits := Some(Max(0, pool.credits.value - amount)))];
      }
      return Some(CreditReservation(selected.key, selected.keyId, amount, FromMemory));
    }

    function ViewOfPool(id: KeyId, now: int): KeySelection.View
      reads this
    {
      KeySelection.View(
        if id in localPools then localPools[id].credits else None,
        if id in localPools then localPools[id].renewsAt else None,
        id in localDisabled || (if id in localCooldownUntil then localCooldownUntil[id] else 0) > now)
    }

    /** `recordResponse`; a Redis reservation is settled when the ledger can be reached. */
    method RecordResponse(reservation: CreditReservation, status: int, actual: Option<int>, now: int, reachable: bool)
      modifies this`localDisabled, this`localCooldownUntil, ledger
      ensures State() == Responded(old(State()), reservation.keyId, status, now)
      ensures ledger.pools
           == if reservation.source.FromRedis? && reachable && Settles(status, actual) then
                old(ledger.pools)[reservation.keyId :=
                  SettledPool(old(ledger.PoolOf(reservation.keyId)), reservation.source.reservation, status,
                              actual, now)]
              else old(ledger.pools)
    {
      var id := reservation.keyId;
      var settles := reservation.source.FromRedis? && reachable;
      if status == 402 {
        localDisabled := localDisabled + {id};
        localCooldownUntil := localCooldownUntil - {id};
        if settles {
          var _ := ledger.Settle(id, reservation.source.reservation, ToDisabled, 0);
        }
        return;
      }
      if status == 429 {
        var cooldownUntil := now + CREDIT_KEY_COOLDOWN_MS;
        localCooldownUntil := localCooldownUntil[id := cooldownUntil];
        if settles {
          var _ := ledger.Settle(id, reservation.source.reservation, ToCooldown, cooldownUntil);
        }
        return;
      }
      if (status == 401 || status == 403) && reservation.source.FromRedis? {
        if settles {
          var _ := ledger.Settle(id, reservation.source.reservation, ToRefund, 0);
        }
        return;
      }
      if 200 <= status < 300 && actual.Some? && 0 <= actual.value <= MAX_SAFE_INTEGER && settles {
        var _ := ledger.ActualUsage(id, reservation.source.reservation, actual.value);
      }
    }

    method ApplyUsage(id: KeyId, remaining: int, renewsAt: Option<int>, now: int)
      modifies this`localPools, this`localDisabled, this`localCooldownUntil
      ensures State() == Refreshed(old(State()), id, remaining, renewsAt, now)
    {
      localPools := localPools[id := LocalPool(renewsAt, Some(remaining))];
      if remaining > 0 {
        localDisabled := localDisabled - {id};
        if (if id in localCooldownUntil then localCooldownUntil[id] else 0) <= now {
          localCooldownUntil := localCooldownUntil - {id};
        }
      } else {
        localDisabled := localDisabled + {id};
      }
    }
  }

  lemma NoneUsable(m: Memory, candidates: seq<Candidate>, now: int)
    ensures KeySelection.TieSet(KeySelection.LocalRanks(LocalViews(m, candidates, now))) == {}
       <==> forall c :: c in candidates ==> !Usable(m, c.keyId, now)
  {
    var ranks := KeySelection.LocalRanks(LocalViews(m, candidates, now));
    if c :| c in candidates && Usable(m, c.keyId, now) {
      var k: nat :| k < |candidates| && candidates[k] == c;
      KeySelection.SomeoneIsBest(ranks, k);
    } else {
      assert forall i :: 0 <= i < |ranks| ==> candidates[i] in candidates && ranks[i].None?;
    }
  }

  /** What the local scan reads of a key: nothing if it is blocked, else the renewal and balance remembered, or -1. */
  function MemoryReading(m: Memory, id: KeyId, now: int): KeySelection.Reading {
    if id in m.disabled || CooldownOf(m, id) > now then KeySelection.Passed
    else if id !in m.pools then KeySelection.Considered(None, -1)
    else KeySelection.Considered(if m.pools[id].renewsAt == Some(0) then None else m.pools[id].renewsAt,
                                 if m.pools[id].credits.Some? then m.pools[id].credits.value else -1)
  }

  /** The local scan lines up, among the candidates not blocked, by what is remembered of each. */
  lemma LocalScanFollowsTheRule(m: Memory, candidates: seq<Candidate>, now: int)
    ensures var readings :=
              seq(|candidates|, k requires 0 <= k < |candidates| => MemoryReading(m, candidates[k].keyId, now));
            forall i: nat ::
              i in KeySelection.TieSet(KeySelection.LocalRanks(LocalViews(m, candidates, now)))
              <==> KeySelection.FirstInLineOf(readings, i)
  {
    hide KeySelection.TieSet, KeySelection.FirstInLineOf, KeySelection.LocalRanks;
    var views := LocalViews(m, candidates, now);
    KeySelection.ScansFollowTheRule(views, 1, []);
    assert seq(|views|, k requires 0 <= k < |views| => KeySelection.LocalReading(views[k]))
        == seq(|candidates|, k requires 0 <= k < |candidates| => MemoryReading(m, candidates[k].keyId, now));
  }

  // ---------------------------------------------------------------- whole runs

  datatype Event =
    | Deducts(id: KeyId, amount: int)
    | Answers(id: KeyId, status: int, now: int)
    | Refreshes(id: KeyId, remaining: int, renewsAt: Option<int>, now: int)

  function Step(m: Memory, e: Event): Memory {
    match e
    case Deducts(id, amount) => Deduct(m, id, amount)
    case Answers(id, status, now) => Responded(m, id, status, now)
    case Refreshes(id, remaining, renewsAt, now) => Refreshed(m, id, remaining, renewsAt, now)
  }

  function Run(m: Memory, events: seq<Event>): Memory {
    if events == [] then m else Step(Run(m, events[..|events| - 1]), events[|events| - 1])
  }

  predicate Refills(e: Event, id: KeyId) {
    e.Refreshes? && e.id == id && e.remaining > 0
  }

  predicate Exhausts(e: Event, id: KeyId) {
    (e.Answers? && e.id == id && e.status == 402) || (e.Refreshes? && e.id == id && e.remaining <= 0)
  }

  /** Exhausted at some point, and not refilled since. */
  ghost predicate ExhaustedSince(events: seq<Event>, id: KeyId) {
    exists i :: 0 <= i < |events| && Exhausts(events[i], id) && NotRefilledAfter(events, i, id)
  }

  ghost predicate NotRefilledAfter(events: seq<Event>, i: int, id: KeyId) {
    forall j :: i < j < |events| && 0 <= j ==> !Refills(events[j], id)
  }

  lemma ExhaustedSnoc(front: seq<Event>, last: Event, id: KeyId)
    ensures ExhaustedSince(front + [last], id)
       <==> Exhausts(last, id) || (!Refills(last, id) && ExhaustedSince(front, id))
  {
    var events := front + [last];
    assert events[|front|] == last;
    forall i | 0 <= i < |front|
      ensures NotRefilledAfter(events, i, id) <==> NotRefilledAfter(front, i, id) && !Refills(last, id) {
      assert forall j :: 0 <= j < |front| ==> events[j] == front[j];
    }
    if ExhaustedSince(front, id) && !Refills(last, id) {
      var i :| 0 <= i < |front| && Exhausts(front[i], id) && NotRefilledAfter(front, i, id);
      assert Exhausts(events[i], id) && NotRefilledAfter(events, i, id);
    }
    if Exhausts(last, id) {
      assert Exhausts(events[|front|], id) && NotRefilledAfter(events, |front|, id);
    }
  }

  /**
    For every run from an empty memory: a key is locally disabled if and only if
    it was exhausted and has not been refilled since.
   */
  lemma {:induction false} DisabledUntilRefilled(events: seq<Event>, id: KeyId)
    ensures id in Run(Memory(map[], {}, map[]), events).disabled <==> ExhaustedSince(events, id)
  {
    if events != [] {
      DisabledUntilRefilled(events[..|events| - 1], id);
      ExhaustedSnoc(events[..|events| - 1], events[|events| - 1], id);
      assert events[..|events| - 1] + [events[|events| - 1]] == events;
    }
  }

  /** When the key was last rate limited, if it was not reported exhausted since. */
  function LimitedAt(events: seq<Event>, id: KeyId): Option<int> {
    if events == [] then None
    else
      var last := events[|events| - 1];
      if last.Answers? && last.id == id && last.status == 429 then Some(last.now)
      else if last.Answers? && last.id == id && last.status == 402 then None
      else LimitedAt(events[..|events| - 1], id)
  }

  /** No refresh came from a clock ahead of this time. */
  predicate RefreshedBy(events: seq<Event>, now: int) {
    forall i :: 0 <= i < |events| && events[i].Refreshes? ==> events[i].now <= now
  }

  lemma {:induction false} CooldownShows(events: seq<Event>, id: KeyId, now: int)
    requires now >= 0 && RefreshedBy(events, now)
    ensures CooldownOf(Run(Memory(map[], {}, map[]), events), id) > now
       <==> LimitedAt(events, id).Some? && now < LimitedAt(events, id).value + 30_000
  {
    if events != [] {
      CooldownShows(events[..|events| - 1], id, now);
    }
  }

  /**
    Main result 1, for every run from an empty memory: a key is offered exactly
    when it has not been reported exhausted since it was last refilled, and its
    last rate limit, unless one forgotten by a 402, is thirty seconds past.
   */
  lemma UsableExactlyWhen(events: seq<Event>, id: KeyId, now: int)
    requires now >= 0 && RefreshedBy(events, now)
    ensures Usable(Run(Memory(map[], {}, map[]), events), id, now)
       <==> !ExhaustedSince(events, id)
            && (LimitedAt(events, id).Some? ==> LimitedAt(events, id).value + 30_000 <= now)
  {
    hide Run, ExhaustedSince, LimitedAt;
    DisabledUntilRefilled(events, id);
    CooldownShows(events, id, now);
  }

  /** The key's last refresh, and what was deducted since. */
  datatype Known = Known(remaining: int, renewsAt: Option<int>, deducted: int)

  function LastKnown(events: seq<Event>, id: KeyId): Option<Known> {
    if events == [] then None
    else
      var last, before := events[|events| - 1], LastKnown(events[..|events| - 1], id);
      if last.Refreshes? && last.id == id then Some(Known(last.remaining, last.renewsAt, 0))
      else if last.Deducts? && last.id == id && before.Some?
      then Some(before.value.(deducted := before.value.deducted + last.amount))
      else before
  }

  /**
    Main result 2: what memory takes for a key's balance is that of its last
    refresh less the reservations since, and nothing before the first; its
    renewal is the one of that refresh.
   */
  lemma {:induction false} RememberedBalance(events: seq<Event>, id: KeyId)
    requires forall i :: 0 <= i < |events| ==>
               (events[i].Deducts? ==> events[i].amount >= 1) && (events[i].Refreshes? ==> events[i].remaining >= 0)
    ensures var pools := Run(Memory(map[], {}, map[]), events).pools;
            && (id in pools <==> LastKnown(events, id).Some?)
            && (id in pools ==>
                  var known := LastKnown(events, id).value;
                  && known.remaining >= 0 && known.deducted >= 0
                  && pools[id] == LocalPool(known.renewsAt, Some(Max(0, known.remaining - known.deducted))))
  {
    if events != [] {
      RememberedBalance(events[..|events| - 1], id);
    }
  }

  /** The latest 402 or 429 of the key is a 402. */
  predicate ForgetsCooldown(events: seq<Event>, id: KeyId) {
    events != [] &&
    (var last := events[|events| - 1];
     if last.Answers? && last.id == id && (last.status == 402 || last.status == 429) then last.status == 402
     else ForgetsCooldown(events[..|events| - 1], id))
  }

  /**
    Main result 3: within the thirty seconds after a 429 the key is given out
    again if and only if it was meanwhile reported exhausted, which forgets the
    cooldown, and then refilled.
   */
  lemma {:induction false} CooldownHolds(m: Memory, events: seq<Event>, id: KeyId, until: int, now: int)
    requires CooldownOf(m, id) >= until > now >= 0
    requires forall i :: 0 <= i < |events| && !events[i].Deducts? ==>
             until - 30_000 <= events[i].now <= now
    ensures CooldownOf(Run(m, events), id) <= now <==> ForgetsCooldown(events, id)
    ensures ForgetsCooldown(events, id) ==> (id in Run(m, events).disabled <==> ExhaustedSince(events, id))
    ensures Usable(Run(m, events), id, now) <==> ForgetsCooldown(events, id) && !ExhaustedSince(events, id)
  {
    if events != [] {
      var front, last := events[..|events| - 1], events[|events| - 1];
      CooldownHolds(m, front, id, until, now);
      ExhaustedSnoc(front, last, id);
      assert front + [last] == events;
    }
  }

  /** Such a run: a 429, a 402 and a refill at one moment leave the key ready at once. */
  lemma RefillForgetsCooldown(id: KeyId, remaining: int, now: int)
    requires remaining > 0 && now >= 0
    ensures var m := Run(Memory(map[], {}, map[]), [Answers(id, 429, now)]);
            var events := [Answers(id, 402, now), Refreshes(id, remaining, None, now)];
            !Usable(m, id, now) && Usable(Run(m, events), id, now)
  {
    var m0 := Memory(map[], {}, map[]);
    var e0, e1, e2 := Answers(id, 429, now), Answers(id, 402, now), Refreshes(id, remaining, None, now);
    RunSnoc(m0, [], e0);
    assert [] + [e0] == [e0];
    var m := Run(m0, [e0]);
    RunSnoc(m, [], e1);
    assert [] + [e1] == [e1];
    RunSnoc(m, [e1], e2);
    assert [e1] + [e2] == [e1, e2];
  }

  lemma RunSnoc(m: Memory, front: seq<Event>, last: Event)
    ensures Run(m, front + [last]) == Step(Run(m, front), last)
  {
    assert (front + [last])[..|front|] == front;
  }
}
