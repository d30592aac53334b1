/**
  The rate-limit counter of one instance, and the world around it: the
  database's rows, the statements on their way, and an account of where every
  counted request is. Every step is the code between two `await`s.
 */
module RateLimitSpec {
  import opened Common

  type Key = string

  const WINDOW_MS := 60_000
  const FLUSH_INTERVAL_MS := 5_000
  const MAX_BUCKETS := 10_000

  datatype Bucket = Bucket(key: Key, pending: nat, synced: nat, resetAt: int, lastFlushAt: int, fixed: Option<int>)

  /** A statement on its way: the bucket it was taken from, the captured delta, and the pinned window end. */
  datatype Flush = Flush(bucket: nat, delta: nat, fixed: Option<int>)

  datatype Timer = Timer(bucket: nat, due: int)

  /**
    The counter's memory. `heap` holds every bucket ever made, so that a flush,
    a timer or a waiting request can still hold one that left the table.
    `order` is the insertion order of the table.
   */
  datatype Counter = Counter(
    heap: seq<Bucket>,
    table: map<Key, nat>,
    order: seq<Key>,
    inFlight: map<Key, Flush>,
    timers: map<Key, Timer>,
    draining: bool)

  predicate Owns(c: Counter, key: Key, b: nat) {
    b < |c.heap| && c.heap[b].key == key
  }

  ghost predicate Valid(c: Counter) {
    && (forall k :: k in c.table ==> Owns(c, k, c.table[k]))
    && (forall k :: k in c.inFlight ==> Owns(c, k, c.inFlight[k].bucket))
    && (forall k :: k in c.timers ==> Owns(c, k, c.timers[k].bucket))
    && (forall k :: k in c.order <==> k in c.table)
    && NoDuplicates(c.order)
  }

  // ---------------------------------------------------------------- the bucket table

  function Remove(c: Counter, key: Key): Counter {
    c.(table := c.table - {key}, order := Erase(c.order, key))
  }

  /** The key a new bucket for `key` pushes out; an empty key is never pushed out. */
  function Evicted(c: Counter, key: Key): Option<Key> {
    if key !in c.table && |c.order| >= MAX_BUCKETS && c.order[0] != "" then Some(c.order[0]) else None
  }

  function MakeRoom(c: Counter, key: Key): Counter {
    if key in c.table then Remove(c, key)
    else if Evicted(c, key).Some? then Remove(c, Evicted(c, key).value)
    else c
  }

  function Append(c: Counter, bucket: Bucket): Counter {
    c.(heap := c.heap + [bucket], table := c.table[bucket.key := |c.heap|], order := c.order + [bucket.key])
  }

  /** `recordBucket`. */
  function RecordBucket(c: Counter, bucket: Bucket): Counter {
    Append(MakeRoom(c, bucket.key), bucket)
  }

  // ---------------------------------------------------------------- flushing

  /** `flushBucket`. */
  function FlushBucket(c: Counter, key: Key, b: nat, fixed: Option<int>, now: int): Counter
    requires b < |c.heap|
  {
    var bucket := c.heap[b];
    if key in c.inFlight then c
    else if bucket.pending == 0 then c.(heap := c.heap[b := bucket.(lastFlushAt := now)])
    else c.(heap := c.heap[b := bucket.(pending := 0, lastFlushAt := now)],
            inFlight := c.inFlight[key := Flush(b, bucket.pending, fixed)])
  }

  /** `flushIfCurrent`: increments of a window that has ended are dropped. */
  function FlushIfCurrent(c: Counter, key: Key, b: nat, now: int): Counter
    requires b < |c.heap|
  {
    if c.heap[b].resetAt <= now then c.(heap := c.heap[b := c.heap[b].(pending := 0)])
    else FlushBucket(c, key, b, c.heap[b].fixed, now)
  }

  /** The statement of an in-flight flush succeeded and returned the row. */
  function Acknowledge(c: Counter, key: Key, row: Row): Counter
    requires Valid(c) && key in c.inFlight
  {
    var b := c.inFlight[key].bucket;
    c.(heap := c.heap[b := c.heap[b].(synced := row.count, resetAt := row.resetAt)], inFlight := c.inFlight - {key})
  }

  /** It failed, as far as the counter can tell: the captured delta goes back to its bucket. */
  function Restore(c: Counter, key: Key): Counter
    requires Valid(c) && key in c.inFlight
  {
    var flush := c.inFlight[key];
    var bucket := c.heap[flush.bucket];
    c.(heap := c.heap[flush.bucket := bucket.(pending := bucket.pending + flush.delta)], inFlight := c.inFlight - {key})
  }

  // ---------------------------------------------------------------- requests, timers, shutdown

  function NewBucket(key: Key, fixed: Option<int>, now: int): Bucket {
    Bucket(key, 0, 0, if fixed.Some? then fixed.value else now + WINDOW_MS, 0, fixed)
  }

  /** The current bucket of a key, made when there is none or its window has ended. */
  function CurrentBucket(c: Counter, key: Key, fixed: Option<int>, now: int): (r: Counter)
    requires Valid(c)
    ensures key in r.table && Owns(r, key, r.table[key])
  {
    if key in c.table && c.heap[c.table[key]].resetAt > now then c
    else RecordBucket(if key in c.table then Remove(c, key) else c, NewBucket(key, fixed, now))
  }

  function Count(c: Counter, b: nat): Counter
    requires b < |c.heap|
  {
    c.(heap := c.heap[b := c.heap[b].(pending := c.heap[b].pending + 1)])
  }

  /** `hit` up to its `await`. */
  function BeginHit(c: Counter, key: Key, fixed: Option<int>, now: int): Counter
    requires Valid(c)
  {
    var c1 := CurrentBucket(c, key, fixed, now);
    var b := c1.table[key];
    var c2 := Count(c1, b);
    if now - c2.heap[b].lastFlushAt >= FLUSH_INTERVAL_MS then FlushBucket(c2, key, b, fixed, now) else c2
  }

  /** `scheduleFlush`. */
  function Schedule(c: Counter, b: nat, now: int): Counter
    requires b < |c.heap|
  {
    var key := c.heap[b].key;
    if c.draining || key in c.timers then c
    else c.(timers := c.timers[key := Timer(b, now + Max(1_000, c.heap[b].lastFlushAt + FLUSH_INTERVAL_MS - now))])
  }

  /** `hit` after its `await`. */
  function EndHit(c: Counter, b: nat, scheduled: bool, now: int): Counter
    requires b < |c.heap|
  {
    if scheduled && c.heap[b].pending > 0 then Schedule(c, b, now) else c
  }

  /** The count a request holding this bucket is answered with. */
  function Counted(c: Counter, b: nat): nat
    requires b < |c.heap|
  {
    c.heap[b].synced + c.heap[b].pending
  }

  function FireTimer(c: Counter, key: Key, now: int): Counter
    requires Valid(c) && key in c.timers
  {
    var b := c.timers[key].bucket;
    var c1 := c.(timers := c.timers - {key});
    if key !in c.table || c.table[key] != b || c.heap[b].pending == 0 then c1 else FlushIfCurrent(c1, key, b, now)
  }

  /** After the flush a timer started: try again unless the bucket is done with. */
  function RetryTimer(c: Counter, b: nat, now: int): Counter
    requires b < |c.heap|
  {
    var bucket := c.heap[b];
    if bucket.pending > 0 && bucket.resetAt > now && bucket.key in c.table && c.table[bucket.key] == b
    then Schedule(c, b, now) else c
  }

  function StartDraining(c: Counter): Counter {
    c.(draining := true, timers := map[])
  }

  /** One bucket of a drain pass. */
  function DrainKey(c: Counter, key: Key, now: int): Counter
    requires Valid(c)
  {
    if key in c.table && c.heap[c.table[key]].pending > 0 then FlushIfCurrent(c, key, c.table[key], now) else c
  }

  // ---------------------------------------------------------------- the database

  datatype Row = Row(count: nat, resetAt: int)

  /** The upsert: a row whose window has ended starts again from the delta. */
  function Upsert(db: map<Key, Row>, key: Key, delta: nat, fixed: Option<int>, now: int): Row {
    if key in db && db[key].resetAt > now then db[key].(count := db[key].count + delta)
    else Row(delta, if fixed.Some? then fixed.value else now + WINDOW_MS)
  }

  // ---------------------------------------------------------------- the world

  /** A statement the counter gave up on that may still run. */
  datatype Late = Late(key: Key, delta: nat, fixed: Option<int>)

  /**
    `replies`: executed statements whose answer has not arrived. The multisets
    count by key: requests seen here, increments this instance committed, what
    other instances committed, what was restored although it was committed, and
    what a flush dropped because its window had ended. `disturbed` holds the
    keys for which anything but a plain hit, flush or failed flush happened.
   */
  datatype World = World(
    counter: Counter,
    db: map<Key, Row>,
    replies: map<Key, Row>,
    late: seq<Late>,
    hits: multiset<Key>,
    committed: multiset<Key>,
    foreign: multiset<Key>,
    duplicated: multiset<Key>,
    expired: multiset<Key>,
    disturbed: set<Key>)

  datatype Step =
    | BeginsHit(key: Key, fixed: Option<int>, now: int)
    | EndsHit(b: nat, scheduled: bool, now: int)
    | Commits(key: Key, now: int)
    | Acknowledged(key: Key)
    | Fails(key: Key)
    | CommitsLate(i: nat, now: int)
    | TimerFires(key: Key, now: int)
    | TimerRetries(b: nat, now: int)
    | DrainStarts
    | Drains(key: Key, now: int)
    | OtherCommits(key: Key, delta: nat, fixed: Option<int>, now: int)
    | RowDeleted(key: Key)

  predicate Enabled(w: World, step: Step) {
    match step
    case EndsHit(b, _, _) => b < |w.counter.heap|
    case Commits(key, _) => key in w.counter.inFlight && key !in w.replies
    case Acknowledged(key) => key in w.counter.inFlight && key in w.replies
    case Fails(key) => key in w.counter.inFlight
    case CommitsLate(i, _) => i < |w.late|
    case TimerFires(key, _) => key in w.counter.timers
    case TimerRetries(b, _) => b < |w.counter.heap|
    case _ => true
  }

  function Add(m: multiset<Key>, key: Key, n: nat): multiset<Key> {
    m[key := m[key] + n]
  }

  /** What a flush attempt on the key's current bucket drops. */
  function DroppedByFlush(c: Counter, key: Key, now: int): nat
    requires Valid(c)
  {
    if key in c.table && c.heap[c.table[key]].resetAt <= now then c.heap[c.table[key]].pending else 0
  }

  /** The keys whose bucket a request replaces or pushes out. */
  function Displaced(c: Counter, key: Key, now: int): set<Key>
    requires Valid(c)
  {
    if key in c.table && c.heap[c.table[key]].resetAt > now then {}
    else if key in c.table then
      {key} + (if Evicted(Remove(c, key), key).Some? then {Evicted(Remove(c, key), key).value} else {})
    else if Evicted(c, key).Some? then {Evicted(c, key).value} else {}
  }

  /** The database runs a statement, which disturbs the key when it starts a new window. */
  function Execute(w: World, key: Key, delta: nat, fixed: Option<int>, now: int): World {
    w.(db := w.db[key := Upsert(w.db, key, delta, fixed, now)],
       disturbed := w.disturbed + (if key in w.db && w.db[key].resetAt <= now then {key} else {}))
  }

  /** A flush outside a request, for the key's current bucket. */
  function FlushNow(w: World, key: Key, now: int, next: Counter): World
    requires Valid(w.counter)
  {
    var dropped := DroppedByFlush(w.counter, key, now);
    w.(counter := next,
       expired := Add(w.expired, key, dropped),
       disturbed := w.disturbed + (if dropped > 0 then {key} else {}))
  }

  function Next(w: World, step: Step): World
    requires Valid(w.counter) && Enabled(w, step)
  {
    var c := w.counter;
    match step
    case BeginsHit(key, fixed, now) =>
      w.(counter := BeginHit(c, key, fixed, now),
         hits := Add(w.hits, key, 1),
         disturbed := w.disturbed + Displaced(c, key, now))
    case EndsHit(b, scheduled, now) => w.(counter := EndHit(c, b, scheduled, now))
    case Commits(key, now) =>
      var flush := c.inFlight[key];
      var w1 := Execute(w, key, flush.delta, flush.fixed, now);
      w1.(replies := w.replies[key := w1.db[key]], committed := Add(w.committed, key, flush.delta))
    case Acknowledged(key) =>
      w.(counter := Acknowledge(c, key, w.replies[key]), replies := w.replies - {key})
    case Fails(key) =>
      var flush := c.inFlight[key];
      var w1 := w.(counter := Restore(c, key));
      if key in w.replies then
        w1.(replies := w.replies - {key},
            duplicated := Add(w.duplicated, key, flush.delta),
            disturbed := w.disturbed + {key})
      else w1.(late := w.late + [Late(key, flush.delta, flush.fixed)])
    case CommitsLate(i, now) =>
      var late := w.late[i];
      Execute(w, late.key, late.delta, late.fixed, now).(
        late := w.late[..i] + w.late[i + 1..],
        committed := Add(w.committed, late.key, late.delta),
        duplicated := Add(w.duplicated, late.key, late.delta),
        disturbed := w.disturbed + {late.key})
    case TimerFires(key, now) =>
      var due := key in c.table && c.table[key] == c.timers[key].bucket && c.heap[c.table[key]].pending > 0;
      if due then FlushNow(w, key, now, FireTimer(c, key, now)) else w.(counter := FireTimer(c, key, now))
    case TimerRetries(b, now) => w.(counter := RetryTimer(c, b, now))
    case DrainStarts => w.(counter := StartDraining(c))
    case Drains(key, now) => FlushNow(w, key, now, DrainKey(c, key, now))
    case OtherCommits(key, delta, fixed, now) =>
      Execute(w, key, delta, fixed, now).(foreign := Add(w.foreign, key, delta), disturbed := w.disturbed + {key})
    case RowDeleted(key) => w.(db := w.db - {key}, disturbed := w.disturbed + {key})
  }
}
