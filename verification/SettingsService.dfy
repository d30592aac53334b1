/** The settings service: its cache and in-flight maps, changed around the awaits of reads and writes. */
module SettingsServices {
  import opened ReadThroughSpec

  const SETTINGS_TTL_MS := 5_000

  /** One more key to look up. */
  lemma OneMoreKey(c: Cache, keys: seq<Key>, i: nat, now: int)
    requires i < |keys|
    ensures KeySet(keys[..i + 1]) == KeySet(keys[..i]) + {keys[i]}
    ensures Stale(c, KeySet(keys[..i + 1]), now)
         == Stale(c, KeySet(keys[..i]), now) + (if Fresh(c, keys[i], now) then {} else {keys[i]})
    ensures Missing(c, KeySet(keys[..i + 1]), now)
         == Missing(c, KeySet(keys[..i]), now)
            + (if Fresh(c, keys[i], now) || keys[i] in c.inFlight then {} else {keys[i]})
  {
    assert keys[..i + 1] == keys[..i] + [keys[i]];
  }

  lemma AlreadySeen(c: Cache, keys: set<Key>, key: Key, now: int)
    requires key in keys
    ensures Fresh(c, key, now) || key in Stale(c, keys, now)
    ensures Fresh(c, key, now) || key in c.inFlight || key in Missing(c, keys, now)
  {
  }

  lemma Collected(keys: seq<Key>, missing: seq<Key>, expected: set<Key>)
    requires forall k :: k in missing <==> k in expected
    ensures KeySet(missing) == expected && (missing == [] <==> expected == {})
    ensures forall k :: k in keys <==> k in KeySet(keys)
  {
    if missing != [] {
      assert missing[0] in missing;
    }
  }

  lemma NoKeysYet(c: Cache, keys: seq<Key>, now: int)
    ensures KeySet(keys[..0]) == {} == Stale(c, KeySet(keys[..0]), now) == Missing(c, KeySet(keys[..0]), now)
    ensures keys[..|keys|] == keys
  {
  }

  class SettingsService {
    var cache: map<Key, Cached>
    var inflight: map<Key, nat>
    /** How many queries were made: the identity of the next one. */
    var made: nat

    ghost function State(): Cache
      reads this
    {
      Cache(cache, inflight, made)
    }

    constructor ()
      ensures State() == Cache(map[], map[], 0)
    {
      cache, inflight, made := map[], map[], 0;
    }

    method GetSetting(key: Key, now: int) returns (lookup: Lookup)
      modifies this
      ensures lookup == LookupOf(old(State()), key, now)
      ensures State() == Start(old(State()), {key}, now)
    {
      if key in cache && cache[key].expiresAt > now {
        assert Stale(State(), {key}, now) == {} == Missing(State(), {key}, now);
        return Found(cache[key].reading);
      }
      assert Stale(State(), {key}, now) == {key};
      cache := cache - {key};
      if key in inflight {
        assert Missing(old(State()), {key}, now) == {};
        return Awaits(inflight[key]);
      }
      assert Missing(old(State()), {key}, now) == {key};
      lookup := Awaits(made);
      inflight := inflight[key := made];
      made := made + 1;
    }

    /** Reads several settings with at most one query, for exactly the keys neither cached nor in flight. */
    method GetSettings(keys: seq<Key>, now: int) returns (lookups: map<Key, Lookup>, missing: seq<Key>)
      modifies this
      ensures lookups.Keys == KeySet(keys)
      ensures forall k :: k in keys ==> lookups[k] == LookupOf(old(State()), k, now)
      ensures KeySet(missing) == Missing(old(State()), KeySet(keys), now)
      ensures State() == Start(old(State()), KeySet(keys), now)
    {
      hide KeySet, Stale, Missing;
      lookups, missing := map[], [];
      NoKeysYet(State(), keys, now);
      for i := 0 to |keys|
        invariant inflight == old(inflight) && made == old(made)
        invariant lookups.Keys == KeySet(keys[..i])
        invariant forall k :: k in lookups ==> lookups[k] == LookupOf(old(State()), k, now)
        invariant forall k :: k in missing <==> k in Missing(old(State()), KeySet(keys[..i]), now)
        invariant cache == old(cache) - Stale(old(State()), KeySet(keys[..i]), now)
        invariant Stale(old(State()), KeySet(keys[..i]), now) <= lookups.Keys
      {
        var key := keys[i];
        OneMoreKey(old(State()), keys, i, now);
        if key in lookups {
          AlreadySeen(old(State()), KeySet(keys[..i]), key, now);
          continue;
        }
        if key in cache && cache[key].expiresAt > now {
          lookups := lookups[key := Found(cache[key].reading)];
          continue;
        }
        cache := cache - {key};
        if key in inflight {
          lookups := lookups[key := Awaits(inflight[key])];
        } else {
          lookups := lookups[key := Awaits(made)];
          missing := missing + [key];
        }
      }
      Collected(keys, missing, Missing(old(State()), KeySet(keys), now));
      if missing != [] {
        TrackAll(missing);
      }
    }

    /** Registers the new query for each of its keys. */
    method TrackAll(missing: seq<Key>)
      modifies this`inflight, this`made
      ensures inflight == old(inflight) + map k | k in KeySet(missing) :: old(made)
      ensures made == old(made) + 1
    {
      for i := 0 to |missing|
        invariant inflight == old(inflight) + map k | k in KeySet(missing[..i]) :: old(made)
        invariant made == old(made)
      {
        assert missing[..i + 1] == missing[..i] + [missing[i]];
        inflight := inflight[missing[i] := made];
      }
      assert missing[..|missing|] == missing;
      made := made + 1;
    }

    /** The query answered: `track` after its `await`. */
    method OnValue(key: Key, query: nat, reading: Reading, now: int)
      modifies this`cache, this`inflight
      ensures State() == Resolve(old(State()), key, query, reading, now + 5_000)
    {
      if key in inflight && inflight[key] == query {
        cache := cache[key := Cached(reading, now + SETTINGS_TTL_MS)];
      }
      if key in inflight && inflight[key] == query {
        inflight := inflight - {key};
      }
    }

    method OnFailure(key: Key, query: nat)
      modifies this`inflight
      ensures State() == Reject(old(State()), key, query)
    {
      if key in inflight && inflight[key] == query {
        inflight := inflight - {key};
      }
    }

    /** `setSetting` and `replaceSettingIfUnchanged` after the database returned. */
    method AfterWrite(key: Key)
      modifies this`cache, this`inflight
      ensures State() == Invalidate(old(State()), key)
    {
      cache := cache - {key};
      inflight := inflight - {key};
    }

    method ClearCache()
      modifies this`cache, this`inflight
      ensures State() == Clear(old(State()))
    {
      cache, inflight := map[], map[];
    }
  }
}
