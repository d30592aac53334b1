/**
  The bounded LRU of scrape bodies as a list of entries in recency order,
  oldest first, and what every run of it guarantees.
 */
module ResponseCacheSpec {
  import opened Common

  type Key = string

  datatype Entry = Entry(status: int, contentType: string, body: bytes, storedAt: int)

  /** `entries` is the insertion-ordered Map; `totalBytes` the running byte counter. */
  datatype Cache = Cache(entries: seq<(Key, Entry)>, totalBytes: int, ttlMs: int)

  const MAX_CACHED_ENTRY_BYTES: nat := 2 * 1024 * 1024

  function Bytes(entries: seq<(Key, Entry)>): nat {
    if entries == [] then 0 else |entries[0].1.body| + Bytes(entries[1..])
  }

  function Without(entries: seq<(Key, Entry)>, key: Key): seq<(Key, Entry)> {
    if entries == [] then []
    else if entries[0].0 == key then Without(entries[1..], key)
    else [entries[0]] + Without(entries[1..], key)
  }

  function Find(entries: seq<(Key, Entry)>, key: Key): Option<Entry> {
    if entries == [] then None
    else if entries[0].0 == key then Some(entries[0].1)
    else Find(entries[1..], key)
  }

  predicate Enabled(c: Cache, maxBytes: int) {
    c.ttlMs > 0 && maxBytes > 0
  }

  /** `remove`: an entry that is no longer the stored one is left alone. */
  function Remove(c: Cache, key: Key, entry: Entry): Cache {
    if Find(c.entries, key) != Some(entry) then c
    else c.(entries := Without(c.entries, key), totalBytes := c.totalBytes - |entry.body|)
  }

  function SetTtl(c: Cache, ttlMs: int): Cache {
    if ttlMs == c.ttlMs then c
    else if ttlMs <= 0 then Cache([], 0, ttlMs)
    else c.(ttlMs := ttlMs)
  }

  function Get(c: Cache, key: Key, maxAgeMs: Option<int>, now: int): (Cache, Option<Entry>) {
    match Find(c.entries, key)
    case None => (c, None)
    case Some(entry) =>
      var age := now - entry.storedAt;
      if age >= c.ttlMs then (Remove(c, key, entry), None)
      else if maxAgeMs.Some? && age > maxAgeMs.value then (c, None)
      else (c.(entries := Without(c.entries, key) + [(key, entry)]), Some(entry))
  }

  /** Whether `set` stores a body of this size. */
  predicate Accepts(c: Cache, maxBytes: int, size: nat) {
    Enabled(c, maxBytes) && size <= MAX_CACHED_ENTRY_BYTES && size <= maxBytes
  }

  /** The eviction loop: drop the oldest entry while over budget. */
  function Evict(c: Cache, maxBytes: int): Cache
    decreases |c.entries|
  {
    if c.totalBytes > maxBytes && c.entries != [] then
      Evict(c.(entries := c.entries[1..], totalBytes := c.totalBytes - |c.entries[0].1.body|), maxBytes)
    else c
  }

  function Set(c: Cache, maxBytes: int, key: Key, entry: Entry): Cache {
    if !Accepts(c, maxBytes, |entry.body|) then c
    else
      var previous := Find(c.entries, key);
      var d := if previous.Some? then Remove(c, key, previous.value) else c;
      Evict(d.(entries := d.entries + [(key, entry)], totalBytes := d.totalBytes + |entry.body|), maxBytes)
  }

  // ---------------------------------------------------------------- invariant

  predicate DistinctKeys(entries: seq<(Key, Entry)>) {
    forall i, j :: 0 <= i < j < |entries| ==> entries[i].0 != entries[j].0
  }

  /** One entry per key, an exact byte counter within the budget, and nothing kept while switched off. */
  predicate Valid(c: Cache, maxBytes: int) {
    && DistinctKeys(c.entries)
    && c.totalBytes == Bytes(c.entries) <= maxBytes
    && (c.ttlMs <= 0 ==> c.entries == [])
  }

  lemma {:induction false} BytesAppend(a: seq<(Key, Entry)>, b: seq<(Key, Entry)>)
    ensures Bytes(a + b) == Bytes(a) + Bytes(b)
  {
    if a == [] {
      assert a + b == b;
    } else {
      assert (a + b)[0] == a[0] && (a + b)[1..] == a[1..] + b;
      BytesAppend(a[1..], b);
    }
  }

  lemma {:induction false} WithoutAbsent(entries: seq<(Key, Entry)>, key: Key)
    requires Find(entries, key) == None
    ensures Without(entries, key) == entries
    ensures forall i :: 0 <= i < |entries| ==> entries[i].0 != key
  {
    if entries != [] {
      WithoutAbsent(entries[1..], key);
      forall i | 0 <= i < |entries| ensures entries[i].0 != key {
        assert i > 0 ==> entries[i] == entries[1..][i - 1];
      }
    }
  }

  /** Dropping a key removes exactly its entry and keeps the others in order. */
  lemma {:induction false} WithoutProperties(entries: seq<(Key, Entry)>, key: Key)
    requires DistinctKeys(entries)
    ensures var rest := Without(entries, key);
            && DistinctKeys(rest) && Find(rest, key) == None
            && (forall other :: other != key ==> Find(rest, other) == Find(entries, other))
            && (forall i :: 0 <= i < |rest| ==> rest[i] in entries && rest[i].0 != key)
            && Bytes(entries) == Bytes(rest) + (if Find(entries, key).Some? then |Find(entries, key).value.body| else 0)
  {
    if entries != [] {
      WithoutProperties(entries[1..], key);
      if entries[0].0 == key {
        if Find(entries[1..], key).Some? {
          FindIn(entries[1..], key);
        }
        WithoutAbsent(entries[1..], key);
      }
    }
  }

  lemma {:induction false} FindIn(entries: seq<(Key, Entry)>, key: Key)
    requires Find(entries, key).Some?
    ensures (key, Find(entries, key).value) in entries
  {
    if entries[0].0 != key {
      FindIn(entries[1..], key);
    }
  }

  lemma {:induction false} FindAppend(entries: seq<(Key, Entry)>, key: Key, entry: Entry, other: Key)
    ensures Find(entries + [(key, entry)], other)
         == if Find(entries, other).Some? then Find(entries, other) else if other == key then Some(entry) else None
  {
    var all := entries + [(key, entry)];
    if entries == [] {
      assert all[1..] == [];
    } else {
      assert all[0] == entries[0] && all[1..] == entries[1..] + [(key, entry)];
      FindAppend(entries[1..], key, entry, other);
    }
  }

  lemma {:induction false} FindSuffix(entries: seq<(Key, Entry)>, k: nat, key: Key)
    requires DistinctKeys(entries) && k <= |entries| && Find(entries[k..], key).Some?
    ensures Find(entries, key) == Find(entries[k..], key)
  {
    if k > 0 {
      FindIn(entries[k..], key);
      assert entries[k..] == entries[1..][k - 1..];
      FindSuffix(entries[1..], k - 1, key);
      var i :| 0 <= i < |entries[k..]| && entries[k..][i].0 == key;
      assert entries[k + i].0 == key;
    }
  }

  /** Making room for a key leaves distinct keys, none of them it. */
  lemma ForgetPrevious(c: Cache, maxBytes: int, key: Key, entry: Entry)
    requires Valid(c, maxBytes)
    ensures var previous := Find(c.entries, key);
            var d := if previous.Some? then Remove(c, key, previous.value) else c;
            DistinctKeys(d.entries + [(key, entry)])
  {
    hide Without, Find;
    WithoutProperties(c.entries, key);
    if Find(c.entries, key).None? {
      WithoutAbsent(c.entries, key);
    }
  }

  /** The recency order an accepted `set` starts evicting from: the other entries, then the new one. */
  function Candidate(c: Cache, key: Key, entry: Entry): seq<(Key, Entry)> {
    Without(c.entries, key) + [(key, entry)]
  }

  /** `k` starts the longest suffix of `order` that fits the budget. */
  predicate LongestFit(order: seq<(Key, Entry)>, k: nat, maxBytes: int) {
    && k <= |order| && Bytes(order[k..]) <= maxBytes
    && forall j :: 0 <= j < k ==> Bytes(order[j..]) > maxBytes
  }

  /** With distinct keys, removing the oldest entry's key removes just that entry. */
  lemma WithoutHead(entries: seq<(Key, Entry)>)
    requires entries != [] && DistinctKeys(entries)
    ensures Without(entries, entries[0].0) == entries[1..] && DistinctKeys(entries[1..])
  {
    if Find(entries[1..], entries[0].0).Some? {
      FindIn(entries[1..], entries[0].0);
    } else {
      WithoutAbsent(entries[1..], entries[0].0);
    }
  }

  /** Dropping one more entry from an order that is too big. */
  lemma LongerFit(order: seq<(Key, Entry)>, n: nat, maxBytes: int)
    requires order != [] && Bytes(order) > maxBytes && LongestFit(order[1..], n, maxBytes)
    ensures LongestFit(order, n + 1, maxBytes) && order[n + 1..] == order[1..][n..]
  {
    hide Bytes;
    assert order[n + 1..] == order[1..][n..] && order[0..] == order;
    forall j | 0 < j < n + 1 ensures Bytes(order[j..]) > maxBytes {
      assert order[j..] == order[1..][j - 1..];
    }
  }

  lemma {:induction false} EvictIsLongestFit(c: Cache, maxBytes: int) returns (k: nat)
    requires c.totalBytes == Bytes(c.entries) && maxBytes >= 0
    ensures LongestFit(c.entries, k, maxBytes)
    ensures Evict(c, maxBytes) == c.(entries := c.entries[k..], totalBytes := Bytes(c.entries[k..]))
    decreases |c.entries|
  {
    if c.totalBytes > maxBytes && c.entries != [] {
      var d := c.(entries := c.entries[1..], totalBytes := c.totalBytes - |c.entries[0].1.body|);
      var n := EvictIsLongestFit(d, maxBytes);
      k := n + 1;
      LongerFit(c.entries, n, maxBytes);
    } else {
      k := 0;
      assert c.entries[0..] == c.entries;
    }
  }

  lemma SetIsEviction(c: Cache, maxBytes: int, key: Key, entry: Entry)
    requires Valid(c, maxBytes) && Accepts(c, maxBytes, |entry.body|)
    ensures var order := Candidate(c, key, entry);
            Set(c, maxBytes, key, entry) == Evict(Cache(order, Bytes(order), c.ttlMs), maxBytes)
  {
    WithoutProperties(c.entries, key);
    if Find(c.entries, key).None? {
      WithoutAbsent(c.entries, key);
    }
    BytesAppend(Without(c.entries, key), [(key, entry)]);
    assert [(key, entry)][1..] == [];
  }

  /**
    An accepted `set` leaves exactly the longest suffix of the recency order
    that fits, with the new entry last and never evicted.
   */
  lemma SetKeepsLongestSuffix(c: Cache, maxBytes: int, key: Key, entry: Entry) returns (k: nat)
    requires Valid(c, maxBytes) && Accepts(c, maxBytes, |entry.body|)
    ensures LongestFit(Candidate(c, key, entry), k, maxBytes) && k < |Candidate(c, key, entry)|
    ensures Set(c, maxBytes, key, entry).entries == Candidate(c, key, entry)[k..]
    ensures Set(c, maxBytes, key, entry).totalBytes == Bytes(Candidate(c, key, entry)[k..])
    ensures Set(c, maxBytes, key, entry).ttlMs == c.ttlMs
  {
    hide Without;
    var order := Candidate(c, key, entry);
    SetIsEviction(c, maxBytes, key, entry);
    k := EvictIsLongestFit(Cache(order, Bytes(order), c.ttlMs), maxBytes);
    var last := order[|order| - 1..];
    assert last == [(key, entry)] && last[1..] == [];
    assert Bytes(last) == |entry.body|;
  }

  /** An accepted `set` keeps one entry per key and the exact counter within the budget. */
  lemma SetStaysValid(c: Cache, maxBytes: int, key: Key, entry: Entry)
    requires Valid(c, maxBytes)
    ensures Valid(Set(c, maxBytes, key, entry), maxBytes)
  {
    if Accepts(c, maxBytes, |entry.body|) {
      var _ := SetKeepsLongestSuffix(c, maxBytes, key, entry);
      WithoutProperties(c.entries, key);
      assert DistinctKeys(Candidate(c, key, entry));
    }
  }

  // ---------------------------------------------------------------- runs

  datatype Op =
    | SetTtlOp(ttlMs: int)
    | GetOp(key: Key, maxAgeMs: Option<int>, now: int)
    | SetOp(key: Key, entry: Entry)

  /** The cache next to the plain thing it stands for: the latest accepted value of each key since a switch-off. */
  datatype World = World(cache: Cache, latest: map<Key, Entry>)

  function Next(w: World, maxBytes: int, op: Op): World {
    match op
    case SetTtlOp(ttlMs) =>
      World(SetTtl(w.cache, ttlMs), if ttlMs != w.cache.ttlMs && ttlMs <= 0 then map[] else w.latest)
    case GetOp(key, maxAgeMs, now) => w.(cache := Get(w.cache, key, maxAgeMs, now).0)
    case SetOp(key, entry) =>
      World(Set(w.cache, maxBytes, key, entry),
            if Accepts(w.cache, maxBytes, |entry.body|) then w.latest[key := entry] else w.latest)
  }

  function Run(w: World, maxBytes: int, ops: seq<Op>): World
    decreases |ops|
  {
    if ops == [] then w else Run(Next(w, maxBytes, ops[0]), maxBytes, ops[1..])
  }

  ghost predicate Faithful(w: World, maxBytes: int) {
    && Valid(w.cache, maxBytes)
    && forall key :: Find(w.cache.entries, key).Some? ==>
         key in w.latest && w.latest[key] == Find(w.cache.entries, key).value
  }

  lemma NextStaysFaithful(w: World, maxBytes: int, op: Op)
    requires Faithful(w, maxBytes) && maxBytes >= 0
    ensures Faithful(Next(w, maxBytes, op), maxBytes)
  {
    match op {
      case SetTtlOp(_) =>
      case GetOp(key, maxAgeMs, now) =>
        GetStaysFaithful(w, maxBytes, key, maxAgeMs, now);
      case SetOp(key, entry) =>
        if Accepts(w.cache, maxBytes, |entry.body|) {
          var k := SetKeepsLongestSuffix(w.cache, maxBytes, key, entry);
          var order := Candidate(w.cache, key, entry);
          SetStaysValid(w.cache, maxBytes, key, entry);
          WithoutProperties(w.cache.entries, key);
          assert DistinctKeys(order);
          forall other | Find(order[k..], other).Some?
            ensures other in Next(w, maxBytes, op).latest
                    && Next(w, maxBytes, op).latest[other] == Find(order[k..], other).value
          {
            FindSuffix(order, k, other);
            FindAppend(Without(w.cache.entries, key), key, entry, other);
          }
        }
    }
  }

  lemma GetStaysFaithful(w: World, maxBytes: int, key: Key, maxAgeMs: Option<int>, now: int)
    requires Faithful(w, maxBytes)
    ensures Faithful(w.(cache := Get(w.cache, key, maxAgeMs, now).0), maxBytes)
  {
    var entries := w.cache.entries;
    WithoutProperties(entries, key);
    if Find(entries, key).Some? {
      var rest, entry := Without(entries, key), Find(entries, key).value;
      BytesAppend(rest, [(key, entry)]);
      assert [(key, entry)][1..] == [];
      assert DistinctKeys(rest + [(key, entry)]);
      forall other ensures Find(rest + [(key, entry)], other) == Find(entries, other) {
        FindAppend(rest, key, entry, other);
      }
    }
  }

  lemma {:induction false} RunStaysFaithful(w: World, maxBytes: int, ops: seq<Op>)
    requires Faithful(w, maxBytes) && maxBytes >= 0
    ensures Faithful(Run(w, maxBytes, ops), maxBytes)
    decreases |ops|
  {
    if ops != [] {
      NextStaysFaithful(w, maxBytes, ops[0]);
      RunStaysFaithful(Next(w, maxBytes, ops[0]), maxBytes, ops[1..]);
    }
  }

  /**
    Main result, for every run from an empty cache: the byte counter is exact
    and within the budget, and a lookup answers only with the latest accepted
    value of its key since the last switch-off, younger than the current TTL
    and no older than the request accepts.
   */
  lemma LookupServesLatest(ttlMs: int, maxBytes: int, ops: seq<Op>, key: Key, maxAgeMs: Option<int>, now: int)
    requires maxBytes >= 0
    ensures var w := Run(World(Cache([], 0, ttlMs), map[]), maxBytes, ops);
            var hit := Get(w.cache, key, maxAgeMs, now).1;
            && w.cache.totalBytes == Bytes(w.cache.entries) <= maxBytes
            && (hit.Some? ==>
                  && key in w.latest && hit.value == w.latest[key]
                  && now - hit.value.storedAt < w.cache.ttlMs
                  && (maxAgeMs.Some? ==> now - hit.value.storedAt <= maxAgeMs.value))
  {
    RunStaysFaithful(World(Cache([], 0, ttlMs), map[]), maxBytes, ops);
  }
}
