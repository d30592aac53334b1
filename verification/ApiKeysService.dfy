/** Validation of API keys: the same read-through cache, bounded and keyed by the hash of the key. */
module ApiKeysServices {
  import opened Common
  import opened ReadThroughSpec

  const VALIDATION_TTL_MS := 30_000
  const VALIDATION_MAX_SIZE := 10_000

  class ApiKeysService {
    var validationCache: map<Key, Cached>
    /** The insertion order of `validationCache`. */
    var order: seq<Key>
    var validationInFlight: map<Key, nat>
    var made: nat

    ghost function State(): Cache
      reads this
    {
      Cache(validationCache, validationInFlight, made)
    }

    ghost predicate Valid()
      reads this
    {
      && NoDuplicates(order)
      && (forall k :: k in order <==> k in validationCache)
      && |order| <= 10_000
      && "" !in order
    }

    constructor ()
      ensures Valid() && State() == Cache(map[], map[], 0)
    {
      validationCache, order, validationInFlight, made := map[], [], map[], 0;
    }

    method Forget(keyHash: Key)
      requires Valid()
      modifies this`validationCache, this`order
      ensures Valid() && validationCache == old(validationCache) - {keyHash} && order == Erase(old(order), keyHash)
      ensures keyHash !in order && |order| <= |old(order)| - (if keyHash in old(order) then 1 else 0)
    {
      EraseOrder(order, keyHash);
      EraseShrinks(order, keyHash);
      validationCache, order := validationCache - {keyHash}, Erase(order, keyHash);
    }

    method ValidateApiKey(keyHash: Key, now: int) returns (lookup: Lookup)
      requires Valid()
      modifies this
      ensures Valid()
      ensures lookup == LookupOf(old(State()), keyHash, now)
      ensures State() == Start(old(State()), {keyHash}, now)
    {
      if keyHash in validationCache && validationCache[keyHash].expiresAt > now {
        assert Stale(State(), {keyHash}, now) == {} == Missing(State(), {keyHash}, now);
        return Found(validationCache[keyHash].reading);
      }
      assert Stale(State(), {keyHash}, now) == {keyHash};
      Forget(keyHash);
      if keyHash in validationInFlight {
        assert Missing(old(State()), {keyHash}, now) == {};
        return Awaits(validationInFlight[keyHash]);
      }
      assert Missing(old(State()), {keyHash}, now) == {keyHash};
      lookup := Awaits(made);
      validationInFlight := validationInFlight[keyHash := made];
      made := made + 1;
    }

    /** Keeps a value, pushing out the oldest one when the cache is full. */
    method RecordValidation(keyHash: Key, reading: Reading, now: int)
      requires Valid() && keyHash != ""
      modifies this`validationCache, this`order
      ensures Valid() && order != [] && order[|order| - 1] == keyHash
      ensures validationCache
           == (if keyHash !in old(validationCache) && |old(order)| >= 10_000
               then old(validationCache) - {old(order)[0]} else old(validationCache))
              [keyHash := Cached(reading, now + 30_000)]
    {
      hide Erase, NoDuplicates;
      if keyHash in validationCache {
        Forget(keyHash);
      } else if |order| >= VALIDATION_MAX_SIZE {
        var oldest := order[0];
        if oldest != "" {
          Forget(oldest);
        }
      }
      PrependKeepsDistinct(keyHash, order);
      validationCache, order := validationCache[keyHash := Cached(reading, now + VALIDATION_TTL_MS)], order + [keyHash];
    }

    /** The query answered: one eviction at most, then the answer is kept if the key still waits for this query. */
    method OnValue(keyHash: Key, query: nat, reading: Reading, now: int) returns (evicted: Option<Key>)
      requires Valid() && keyHash != ""
      modifies this`validationCache, this`order, this`validationInFlight
      ensures Valid()
      ensures evicted.Some? ==> old(order) != [] && evicted.value == old(order)[0] && evicted.value != keyHash
      ensures State() == Resolve(if evicted.Some? then Evict(old(State()), evicted.value) else old(State()),
                                 keyHash, query, reading, now + 30_000)
    {
      evicted := None;
      if keyHash in validationInFlight && validationInFlight[keyHash] == query {
        if keyHash !in validationCache && |order| >= VALIDATION_MAX_SIZE {
          evicted := Some(order[0]);
          assert order[0] in order;
        }
        RecordValidation(keyHash, reading, now);
      }
      if keyHash in validationInFlight && validationInFlight[keyHash] == query {
        validationInFlight := validationInFlight - {keyHash};
      }
    }

    method OnFailure(keyHash: Key, query: nat)
      requires Valid()
      modifies this`validationInFlight
      ensures Valid() && State() == Reject(old(State()), keyHash, query)
    {
      if keyHash in validationInFlight && validationInFlight[keyHash] == query {
        validationInFlight := validationInFlight - {keyHash};
      }
    }

    /** `revokeApiKey` and `updateApiKeyLimits` after the database returned. */
    method AfterWrite(keyHash: Key)
      requires Valid()
      modifies this`validationCache, this`order, this`validationInFlight
      ensures Valid() && State() == Invalidate(old(State()), keyHash)
    {
      Forget(keyHash);
      validationInFlight := validationInFlight - {keyHash};
    }

    method ClearValidationCache()
      modifies this`validationCache, this`order, this`validationInFlight
      ensures Valid() && State() == Clear(old(State()))
    {
      validationCache, order, validationInFlight := map[], [], map[];
    }
  }
}
