/** `ResponseCache` in the source's own form: fields updated in place, eviction in a loop. */
module ResponseCache {
  import opened Common
  import opened ResponseCacheSpec

  class ResponseCache {
    const maxBytes: nat
    var entries: seq<(Key, Entry)>
    var totalBytes: int
    var ttlMs: int

    function Fields(): Cache
      reads this
    {
      Cache(entries, totalBytes, ttlMs)
    }

    constructor (ttlMs: int, maxBytes: nat)
      ensures Fields() == Cache([], 0, ttlMs) && this.maxBytes == maxBytes
    {
      this.maxBytes := maxBytes;
      this.ttlMs := ttlMs;
      entries := [];
      totalBytes := 0;
    }

    method SetTtlMs(ttlMs: int)
      modifies this
      ensures Fields() == SetTtl(old(Fields()), ttlMs)
    {
      if ttlMs == this.ttlMs {
        return;
      }
      this.ttlMs := ttlMs;
      if ttlMs <= 0 {
        entries := [];
        totalBytes := 0;
      }
    }

    method Lookup(key: Key) returns (entry: Option<Entry>)
      ensures entry == Find(entries, key)
    {
      var i := 0;
      while i < |entries|
        invariant 0 <= i <= |entries|
        invariant Find(entries, key) == Find(entries[i..], key)
      {
        if entries[i].0 == key {
          return Some(entries[i].1);
        }
        assert entries[i..][1..] == entries[i + 1..];
        i := i + 1;
      }
      return None;
    }

    method Get(key: Key, maxAgeMs: Option<int>, now: int) returns (hit: Option<Entry>)
      modifies this
      ensures (Fields(), hit) == ResponseCacheSpec.Get(old(Fields()), key, maxAgeMs, now)
    {
      var entry := Lookup(key);
      if entry.None? {
        return None;
      }
      var age := now - entry.value.storedAt;
      if age >= ttlMs {
        Remove(key, entry.value);
        return None;
      }
      if maxAgeMs.Some? && age > maxAgeMs.value {
        return None;
      }
      entries := Without(entries, key);
      entries := entries + [(key, entry.value)];
      return entry;
    }

    method Set(key: Key, entry: Entry)
      requires Valid(Fields(), maxBytes)
      modifies this
      ensures Fields() == ResponseCacheSpec.Set(old(Fields()), maxBytes, key, entry)
      ensures Valid(Fields(), maxBytes)
    {
      hide Valid, Without, Find, Evict, DistinctKeys;
      SetStaysValid(Fields(), maxBytes, key, entry);
      ForgetPrevious(Fields(), maxBytes, key, entry);
      if !(ttlMs > 0 && maxBytes > 0) || |entry.body| > MAX_CACHED_ENTRY_BYTES {
        return;
      }
      if |entry.body| > maxBytes {
        return;
      }
      var previous := Lookup(key);
      if previous.Some? {
        Remove(key, previous.value);
      }
      entries := entries + [(key, entry)];
      totalBytes := totalBytes + |entry.body|;
      EvictOldest();
    }

    /** The eviction loop of `set`. */
    method EvictOldest()
      requires DistinctKeys(entries)
      modifies this
      ensures Fields() == Evict(old(Fields()), maxBytes)
    {
      while totalBytes > maxBytes
        invariant Evict(Fields(), maxBytes) == Evict(old(Fields()), maxBytes)
        invariant DistinctKeys(entries)
        decreases |entries|
      {
        if entries == [] {
          break;
        }
        WithoutHead(entries);
        Remove(entries[0].0, entries[0].1);
      }
    }

    /** `remove`. */
    method Remove(key: Key, entry: Entry)
      modifies this
      ensures Fields() == ResponseCacheSpec.Remove(old(Fields()), key, entry)
    {
      var stored := Lookup(key);
      if stored == Some(entry) {
        entries := Without(entries, key);
        totalBytes := totalBytes - |entry.body|;
      }
    }
  }
}
