/**
  The read-through cache in front of settings and API keys, with the database
  and every read and write in between. Every step is the code between two
  `await`s; the database may be arbitrarily slow.
 */
module ReadThroughSpec {
  import opened Common

  type Key = string

  type Value = string

  /** What a read of one key saw, and how many writes of that key came before it. The code never looks at `version`. */
  datatype Reading = Reading(version: nat, value: Option<Value>)

  datatype Cached = Cached(reading: Reading, expiresAt: int)

  /** The service's memory: `inFlight` names the query a key waits for, `made` counts the queries so far. */
  datatype Cache = Cache(entries: map<Key, Cached>, inFlight: map<Key, nat>, made: nat)

  /** Where a read gets its value: at once, or from a query. */
  datatype Lookup = Found(reading: Reading) | Awaits(query: nat)

  // ---------------------------------------------------------------- the service

  predicate Fresh(c: Cache, key: Key, now: int) {
    key in c.entries && c.entries[key].expiresAt > now
  }

  function LookupOf(c: Cache, key: Key, now: int): Lookup {
    if Fresh(c, key, now) then Found(c.entries[key].reading)
    else if key in c.inFlight then Awaits(c.inFlight[key])
    else Awaits(c.made)
  }

  function Stale(c: Cache, keys: set<Key>, now: int): set<Key> {
    set k | k in keys && !Fresh(c, k, now)
  }

  /** The keys a new query is needed for. */
  function Missing(c: Cache, keys: set<Key>, now: int): set<Key> {
    set k | k in keys && !Fresh(c, k, now) && k !in c.inFlight
  }

  /** The synchronous part of a read: one query for all the missing keys. */
  function Start(c: Cache, keys: set<Key>, now: int): Cache {
    var missing := Missing(c, keys, now);
    Cache(c.entries - Stale(c, keys, now),
          c.inFlight + map k | k in missing :: c.made,
          c.made + (if missing == {} then 0 else 1))
  }

  /** A query answered for one of its keys: kept only while the key still waits for that query. */
  function Resolve(c: Cache, key: Key, query: nat, reading: Reading, expiresAt: int): Cache {
    if key in c.inFlight && c.inFlight[key] == query
    then c.(entries := c.entries[key := Cached(reading, expiresAt)], inFlight := c.inFlight - {key})
    else c
  }

  function Reject(c: Cache, key: Key, query: nat): Cache {
    if key in c.inFlight && c.inFlight[key] == query then c.(inFlight := c.inFlight - {key}) else c
  }

  /** After a write of the key has returned from the database. */
  function Invalidate(c: Cache, key: Key): Cache {
    c.(entries := c.entries - {key}, inFlight := c.inFlight - {key})
  }

  function Clear(c: Cache): Cache {
    c.(entries := map[], inFlight := map[])
  }

  function Evict(c: Cache, key: Key): Cache {
    c.(entries := c.entries - {key})
  }

  // ---------------------------------------------------------------- the world

  /** A query over its keys; `result` once the database has run it. */
  datatype Query = Query(keys: set<Key>, result: Option<map<Key, Reading>>)

  /** A write of this service that the database has run; it returns later, or its answer is lost. */
  datatype Write = Write(key: Key, version: nat)

  /** A read, and what had returned for its key when it started. */
  datatype Read = Read(key: Key, floor: nat, lookup: Lookup)

  /** `log` is every value ever written per key, by anyone; `None` where the row reads as absent. */
  datatype World = World(
    cache: Cache,
    log: map<Key, seq<Option<Value>>>,
    queries: seq<Query>,
    writes: seq<Write>,
    floor: map<Key, nat>,
    started: seq<Read>)

  function LogOf(w: World, key: Key): seq<Option<Value>> {
    if key in w.log then w.log[key] else []
  }

  function FloorOf(w: World, key: Key): nat {
    if key in w.floor then w.floor[key] else 0
  }

  function At(log: seq<Option<Value>>, version: nat): Option<Value>
    requires version <= |log|
  {
    if version == 0 then None else log[version - 1]
  }

  function Current(w: World, key: Key): Reading {
    Reading(|LogOf(w, key)|, At(LogOf(w, key), |LogOf(w, key)|))
  }

  datatype Step =
    | Reads(keys: seq<Key>, now: int)
    | Executes(query: nat)
    | Resolves(query: nat, key: Key, expiresAt: int)
    | Rejects(query: nat, key: Key)
    | Writes(key: Key, value: Option<Value>)
    | ReplacesIfUnchanged(key: Key, expected: Value, replacement: Value)
    | WriteReturns(i: nat)
    | WrittenElsewhere(key: Key, value: Option<Value>)
    | Evicts(key: Key)
    | Clears

  predicate Enabled(w: World, step: Step) {
    match step
    case Executes(q) => q < |w.queries| && w.queries[q].result.None?
    case Resolves(q, key, _) => q < |w.queries| && w.queries[q].result.Some? && key in w.queries[q].result.value
    case WriteReturns(i) => i < |w.writes|
    case _ => true
  }

  function KeySet(keys: seq<Key>): set<Key> {
    set k | k in keys
  }

  /** The distinct keys in order of first appearance. */
  function Distinct(keys: seq<Key>): seq<Key> {
    if keys == [] then []
    else
      var front := Distinct(keys[..|keys| - 1]);
      var last := keys[|keys| - 1];
      if last in front then front else front + [last]
  }

  function NewReads(w: World, keys: seq<Key>, now: int): seq<Read> {
    seq(|keys|, i requires 0 <= i < |keys| => Read(keys[i], FloorOf(w, keys[i]), LookupOf(w.cache, keys[i], now)))
  }

  function Append(w: World, key: Key, value: Option<Value>): World {
    w.(log := w.log[key := LogOf(w, key) + [value]])
  }

  function Next(w: World, step: Step): World
    requires Enabled(w, step)
  {
    match step
    case Reads(keys, now) =>
      var missing := Missing(w.cache, KeySet(keys), now);
      w.(cache := Start(w.cache, KeySet(keys), now),
         queries := w.queries + (if missing == {} then [] else [Query(missing, None)]),
         started := w.started + NewReads(w, Distinct(keys), now))
    case Executes(q) =>
      var query := w.queries[q];
      w.(queries := w.queries[q := query.(result := Some(map k | k in query.keys :: Current(w, k)))])
    case Resolves(q, key, expiresAt) =>
      w.(cache := Resolve(w.cache, key, q, w.queries[q].result.value[key], expiresAt))
    case Rejects(q, key) => w.(cache := Reject(w.cache, key, q))
    case Writes(key, value) =>
      Append(w, key, value).(writes := w.writes + [Write(key, |LogOf(w, key)| + 1)])
    case ReplacesIfUnchanged(key, expected, replacement) =>
      if Current(w, key).value == Some(expected)
      then Append(w, key, Some(replacement)).(writes := w.writes + [Write(key, |LogOf(w, key)| + 1)])
      else w.(writes := w.writes + [Write(key, |LogOf(w, key)|)])
    case WriteReturns(i) =>
      var write := w.writes[i];
      w.(cache := Invalidate(w.cache, write.key),
         floor := w.floor[write.key := Max(FloorOf(w, write.key), write.version)])
    case WrittenElsewhere(key, value) => Append(w, key, value)
    case Evicts(key) => w.(cache := Evict(w.cache, key))
    case Clears => w.(cache := Clear(w.cache))
  }

  /** What a read yields, once it can. */
  function Outcome(w: World, read: Read): Option<Reading> {
    match read.lookup
    case Found(reading) => Some(reading)
    case Awaits(q) =>
      if q < |w.queries| && w.queries[q].result.Some? && read.key in w.queries[q].result.value
      then Some(w.queries[q].result.value[read.key]) else None
  }

  ghost predicate IsRun(w: World, steps: seq<Step>)
    decreases |steps|
  {
    steps != [] ==> Enabled(w, steps[0]) && IsRun(Next(w, steps[0]), steps[1..])
  }

  ghost function Run(w: World, steps: seq<Step>): World
    requires IsRun(w, steps)
    decreases |steps|
  {
    if steps == [] then w else Run(Next(w, steps[0]), steps[1..])
  }
}
