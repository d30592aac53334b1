/** Where every counted request is, at every point of every run of the rate-limit counter. */
module RateLimitProofs {
  import opened Common
  import opened RateLimitSpec

  // ---------------------------------------------------------------- sums over the buckets ever made

  /** Unflushed increments of a key in all its buckets, live or dropped from the table. */
  function PendingOf(heap: seq<Bucket>, key: Key): nat {
    if heap == [] then 0
    else PendingOf(heap[..|heap| - 1], key) + (if heap[|heap| - 1].key == key then heap[|heap| - 1].pending else 0)
  }

  lemma {:induction false} PendingUpdate(heap: seq<Bucket>, b: nat, bucket: Bucket, key: Key)
    requires b < |heap| && bucket.key == heap[b].key
    ensures PendingOf(heap[b := bucket], key)
         == PendingOf(heap, key) + (if bucket.key == key then bucket.pending - heap[b].pending else 0)
  {
    var last := |heap| - 1;
    if b == last {
      assert heap[b := bucket][..last] == heap[..last];
    } else {
      assert heap[b := bucket][..last] == heap[..last][b := bucket];
      PendingUpdate(heap[..last], b, bucket, key);
    }
  }

  lemma PendingAppend(heap: seq<Bucket>, bucket: Bucket, key: Key)
    ensures PendingOf(heap + [bucket], key) == PendingOf(heap, key) + (if bucket.key == key then bucket.pending else 0)
  {
    assert (heap + [bucket])[..|heap|] == heap;
  }

  lemma {:induction false} PendingAtLeast(heap: seq<Bucket>, b: nat)
    requires b < |heap|
    ensures heap[b].pending <= PendingOf(heap, heap[b].key)
  {
    var last := |heap| - 1;
    if b < last {
      PendingAtLeast(heap[..last], b);
    }
  }

  /** With a single bucket, or none, the sum is that bucket's. */
  lemma {:induction false} PendingOfOnly(heap: seq<Bucket>, key: Key, b: nat)
    requires forall i :: 0 <= i < |heap| && heap[i].key == key ==> i == b
    ensures PendingOf(heap, key) == if b < |heap| && heap[b].key == key then heap[b].pending else 0
  {
    if heap != [] {
      PendingOfOnly(heap[..|heap| - 1], key, b);
    }
  }

  // ---------------------------------------------------------------- what a counter step changes

  function InFlightOf(c: Counter, key: Key): nat {
    if key in c.inFlight then c.inFlight[key].delta else 0
  }

  /** A step that changes the increments of one key by `extra` in all and nothing else of the account. */
  ghost predicate Moves(c: Counter, c1: Counter, key: Key, extra: int) {
    && |c1.heap| == |c.heap|
    && (forall i :: 0 <= i < |c.heap| ==> c1.heap[i].key == c.heap[i].key && c1.heap[i].synced == c.heap[i].synced)
    && c1.table == c.table
    && c1.order == c.order
    && (forall k :: k != key ==> PendingOf(c1.heap, k) == PendingOf(c.heap, k))
    && (forall k :: k != key ==> (k in c1.inFlight <==> k in c.inFlight))
    && (forall k :: k != key && k in c.inFlight ==> c1.inFlight[k] == c.inFlight[k])
    && PendingOf(c1.heap, key) + InFlightOf(c1, key) == PendingOf(c.heap, key) + InFlightOf(c, key) + extra
  }

  lemma UpdateMoves(c: Counter, b: nat, bucket: Bucket, inFlight: map<Key, Flush>)
    requires Valid(c) && b < |c.heap| && bucket.key == c.heap[b].key && bucket.synced == c.heap[b].synced
    requires inFlight - {bucket.key} == c.inFlight - {bucket.key}
    requires bucket.key in inFlight ==>
               inFlight[bucket.key].bucket == b
                   || (bucket.key in c.inFlight && inFlight[bucket.key] == c.inFlight[bucket.key])
    ensures var c1 := c.(heap := c.heap[b := bucket], inFlight := inFlight);
            && Valid(c1)
            && Moves(c, c1, bucket.key,
                     bucket.pending - c.heap[b].pending + InFlightOf(c1, bucket.key) - InFlightOf(c, bucket.key))
  {
    hide PendingOf, NoDuplicates;
    forall k ensures PendingOf(c.heap[b := bucket], k)
                  == PendingOf(c.heap, k) + (if bucket.key == k then bucket.pending - c.heap[b].pending else 0) {
      PendingUpdate(c.heap, b, bucket, k);
    }
    forall k | k != bucket.key
      ensures (k in inFlight <==> k in c.inFlight) && (k in c.inFlight ==> inFlight[k] == c.inFlight[k]) {
      assert k in inFlight <==> k in inFlight - {bucket.key};
      assert k in c.inFlight <==> k in c.inFlight - {bucket.key};
      assert k in c.inFlight ==>
             inFlight[k] == (inFlight - {bucket.key})[k] && c.inFlight[k] == (c.inFlight - {bucket.key})[k];
    }
  }

  lemma CountMoves(c: Counter, b: nat)
    requires Valid(c) && b < |c.heap|
    ensures Valid(Count(c, b)) && Moves(c, Count(c, b), c.heap[b].key, 1) && Count(c, b).inFlight == c.inFlight
  {
    hide Moves, Valid;
    UpdateMoves(c, b, c.heap[b].(pending := c.heap[b].pending + 1), c.inFlight);
  }

  lemma FlushMoves(c: Counter, key: Key, b: nat, fixed: Option<int>, now: int)
    requires Valid(c) && Owns(c, key, b)
    ensures var c1 := FlushBucket(c, key, b, fixed, now);
            && Valid(c1) && Moves(c, c1, key, 0)
            && (key in c.inFlight ==> c1 == c)
  {
    hide PendingOf, Valid;
    var bucket := c.heap[b];
    if key in c.inFlight {
    } else if bucket.pending == 0 {
      UpdateMoves(c, b, bucket.(lastFlushAt := now), c.inFlight);
    } else {
      UpdateMoves(c, b, bucket.(pending := 0, lastFlushAt := now), c.inFlight[key := Flush(b, bucket.pending, fixed)]);
    }
  }

  lemma FlushIfCurrentMoves(c: Counter, key: Key, b: nat, now: int)
    requires Valid(c) && Owns(c, key, b)
    ensures var c1 := FlushIfCurrent(c, key, b, now);
            && Valid(c1)
            && Moves(c, c1, key, if c.heap[b].resetAt <= now then 0 - c.heap[b].pending else 0)
            && (key in c.inFlight ==> c1.inFlight == c.inFlight)
  {
    hide Moves, Valid, FlushBucket;
    var bucket := c.heap[b];
    if bucket.resetAt <= now {
      UpdateMoves(c, b, bucket.(pending := 0), c.inFlight);
    } else {
      FlushMoves(c, key, b, bucket.fixed, now);
    }
  }

  lemma RestoreMoves(c: Counter, key: Key)
    requires Valid(c) && key in c.inFlight
    ensures Valid(Restore(c, key)) && Moves(c, Restore(c, key), key, 0) && key !in Restore(c, key).inFlight
  {
    hide Moves;
    var flush := c.inFlight[key];
    UpdateMoves(c, flush.bucket, c.heap[flush.bucket].(pending := c.heap[flush.bucket].pending + flush.delta),
                c.inFlight - {key});
  }

  lemma AcknowledgePending(c: Counter, key: Key, row: Row)
    requires Valid(c) && key in c.inFlight
    ensures Valid(Acknowledge(c, key, row))
    ensures forall k :: PendingOf(Acknowledge(c, key, row).heap, k) == PendingOf(c.heap, k)
  {
    hide PendingOf, NoDuplicates;
    var b := c.inFlight[key].bucket;
    forall k ensures PendingOf(Acknowledge(c, key, row).heap, k) == PendingOf(c.heap, k) {
      PendingUpdate(c.heap, b, c.heap[b].(synced := row.count, resetAt := row.resetAt), k);
    }
  }

  // ---------------------------------------------------------------- the table

  lemma Removed(c: Counter, key: Key)
    requires Valid(c)
    ensures var c1 := Remove(c, key);
            && Valid(c1) && key !in c1.table && key !in c1.order
            && (forall k :: k != key ==> (k in c1.table <==> k in c.table))
            && (forall k :: k in c1.table ==> c1.table[k] == c.table[k])
            && c1.heap == c.heap && c1.inFlight == c.inFlight && c1.timers == c.timers && c1.draining == c.draining
  {
    EraseOrder(c.order, key);
  }

  lemma AppendValid(c: Counter, bucket: Bucket)
    requires Valid(c) && bucket.key !in c.table
    ensures Valid(Append(c, bucket))
  {
    hide NoDuplicates;
    PrependKeepsDistinct(bucket.key, c.order);
  }

  lemma MadeRoom(c: Counter, key: Key)
    requires Valid(c)
    ensures var c1 := MakeRoom(c, key);
            && Valid(c1) && key !in c1.table
            && c1.heap == c.heap && c1.inFlight == c.inFlight && c1.timers == c.timers && c1.draining == c.draining
            && (forall k :: k in c1.table ==> k in c.table && c1.table[k] == c.table[k])
            && (forall k :: k != key && k in c.table && Evicted(c, key) != Some(k) ==> k in c1.table)
  {
    hide Remove, NoDuplicates;
    var evicted := Evicted(c, key);
    Removed(c, key);
    if evicted.Some? {
      Removed(c, evicted.value);
    }
  }

  lemma Recorded(c: Counter, bucket: Bucket)
    requires Valid(c)
    ensures var c1 := RecordBucket(c, bucket);
            && Valid(c1)
            && c1.heap == c.heap + [bucket] && c1.inFlight == c.inFlight
            && c1.timers == c.timers && c1.draining == c.draining
            && bucket.key in c1.table && c1.table[bucket.key] == |c.heap|
            && (forall k :: k != bucket.key && k in c1.table ==> k in c.table && c1.table[k] == c.table[k])
            && (forall k :: k != bucket.key && k in c.table && Evicted(c, bucket.key) != Some(k) ==> k in c1.table)
  {
    hide Remove, Valid;
    MadeRoom(c, bucket.key);
    AppendValid(MakeRoom(c, bucket.key), bucket);
  }

  /** The request names a window end that is already past, and its key has no bucket with an open window. */
  predicate NamesPastEnd(c: Counter, key: Key, fixed: Option<int>, now: int) {
    && fixed.Some? && fixed.value <= now
    && !(key in c.table && c.table[key] < |c.heap| && c.heap[c.table[key]].resetAt > now)
  }

  /** A key outside `Displaced` keeps its bucket; a bucket is only made for a key that has none. */
  lemma CurrentBucketKeeps(c: Counter, key: Key, fixed: Option<int>, now: int)
    requires Valid(c)
    ensures var c1 := CurrentBucket(c, key, fixed, now);
            && Valid(c1)
            && (c1 == c || c1.heap == c.heap + [NewBucket(key, fixed, now)])
            && c1.inFlight == c.inFlight
            && (forall k :: k in c.table && k !in Displaced(c, key, now) ==> k in c1.table && c1.table[k] == c.table[k])
            && (forall k :: k != key && k in c1.table ==> k in c.table && c1.table[k] == c.table[k])
            && (c1 == c || c1.table[key] == |c.heap|)
            && (key !in c.table ==> c1.table[key] == |c.heap|)
            && (c1.heap[c1.table[key]].resetAt <= now <==> NamesPastEnd(c, key, fixed, now))
            && (key in c.table && key !in Displaced(c, key, now) ==> c1 == c)
  {
    hide Remove, RecordBucket, NoDuplicates;
    if !(key in c.table && c.heap[c.table[key]].resetAt > now) {
      var c0 := if key in c.table then Remove(c, key) else c;
      Removed(c, key);
      Recorded(c0, NewBucket(key, fixed, now));
    }
  }

  // ---------------------------------------------------------------- the account of one key

  /** Increments captured by a flush whose statement has not run yet. */
  function Unsent(w: World, key: Key): nat {
    if key in w.replies then 0 else InFlightOf(w.counter, key)
  }

  /** Each counted request is in exactly one place; a restored one that was committed anyway is there twice. */
  predicate Balanced(w: World, key: Key) {
    w.hits[key] + w.duplicated[key]
      == PendingOf(w.counter.heap, key) + Unsent(w, key) + w.committed[key] + w.expired[key]
  }

  /** Everything that was ever committed for a key, by any instance. */
  function Ever(w: World, key: Key): nat {
    w.committed[key] + w.foreign[key]
  }

  /** No count read from the database exceeds what was committed. */
  ghost predicate Bounded(w: World, key: Key) {
    && (key in w.db ==> w.db[key].count <= Ever(w, key))
    && (key in w.replies ==> w.replies[key].count <= Ever(w, key))
    && (forall b: nat :: Owns(w.counter, key, b) ==> w.counter.heap[b].synced <= Ever(w, key))
  }

  /** The count a request of this key would see if nothing were pending, with an answer on its way counted in. */
  function Synced(w: World, key: Key): nat {
    (if key in w.counter.table && w.counter.table[key] < |w.counter.heap|
     then w.counter.heap[w.counter.table[key]].synced else 0)
      + (if key in w.replies then InFlightOf(w.counter, key) else 0)
  }

  /** An undisturbed key has one bucket, and the database, its answer and the bucket agree on what was committed. */
  ghost predicate Exact(w: World, key: Key) {
    && w.foreign[key] == 0 && w.duplicated[key] == 0 && w.expired[key] == 0
    && (forall b: nat :: Owns(w.counter, key, b) ==> key in w.counter.table && w.counter.table[key] == b)
    && (if key in w.db then w.db[key].count else 0) == w.committed[key]
    && (key in w.replies ==> w.replies[key].count == w.committed[key])
    && Synced(w, key) == w.committed[key]
  }

  ghost predicate KeyInv(w: World, key: Key) {
    && Balanced(w, key)
    && Bounded(w, key)
    && (key !in w.disturbed ==> Exact(w, key))
  }

  ghost predicate Inv(w: World) {
    && Valid(w.counter)
    && (forall k :: k in w.replies ==> k in w.counter.inFlight)
    && (forall k :: KeyInv(w, k))
  }

  // ---------------------------------------------------------------- step by step

  /** A step of the counter that moves increments of one key, with `hit` new ones and `dropped` fewer. */
  lemma MoveKeepsInv(w: World, c1: Counter, key: Key, hit: nat, dropped: nat)
    requires Inv(w) && Valid(c1) && Moves(w.counter, c1, key, hit - dropped)
    requires key in w.replies ==> c1.inFlight == w.counter.inFlight
    ensures Inv(w.(counter := c1,
                   hits := Add(w.hits, key, hit),
                   expired := Add(w.expired, key, dropped),
                   disturbed := w.disturbed + (if dropped > 0 then {key} else {})))
  {
    hide PendingOf, Valid;
    var w1 := w.(counter := c1,
                 hits := Add(w.hits, key, hit),
                 expired := Add(w.expired, key, dropped),
                 disturbed := w.disturbed + (if dropped > 0 then {key} else {}));
    forall k ensures KeyInv(w1, k) {
      assert KeyInv(w, k);
      assert Balanced(w1, k);
      assert Bounded(w1, k);
      if k !in w1.disturbed {
        assert k !in w.disturbed;
        assert Synced(w1, k) == Synced(w, k);
        assert forall b: nat :: Owns(w1.counter, k, b) ==> Owns(w.counter, k, b);
      }
    }
  }

  lemma AddNothing(m: multiset<Key>, key: Key)
    ensures Add(m, key, 0) == m
  {
  }

  /** The same for a step that counts and drops nothing. */
  lemma SilentMoveKeepsInv(w: World, c1: Counter, key: Key)
    requires Inv(w) && Valid(c1) && Moves(w.counter, c1, key, 0)
    requires key in w.replies ==> c1.inFlight == w.counter.inFlight
    ensures Inv(w.(counter := c1))
  {
    hide Inv, Valid, Moves;
    MoveKeepsInv(w, c1, key, 0, 0);
    AddNothing(w.hits, key);
    AddNothing(w.expired, key);
    assert w.disturbed + {} == w.disturbed;
  }

  /** Timers are no part of the account. */
  lemma TimersKeepInv(w: World, timers: map<Key, Timer>, draining: bool)
    requires Inv(w)
    requires forall k :: k in timers ==> Owns(w.counter, k, timers[k].bucket)
    ensures Inv(w.(counter := w.counter.(timers := timers, draining := draining)))
  {
    hide PendingOf, NoDuplicates, KeyInv;
    SilentMoveKeepsInv(w, w.counter.(timers := timers, draining := draining), "");
  }

  lemma TableOwned(c: Counter)
    requires Valid(c)
    ensures forall k :: k in c.table ==> Owns(c, k, c.table[k])
  {
  }

  /** An undisturbed key without a bucket was never counted. */
  lemma NoBucketNothingCommitted(w: World, key: Key)
    requires Inv(w) && key !in w.disturbed && key !in w.counter.table
    ensures w.committed[key] == 0 && key !in w.counter.inFlight
    ensures forall b: nat :: !Owns(w.counter, key, b)
  {
    hide PendingOf, NoDuplicates, Balanced, Bounded;
    assert KeyInv(w, key);
  }

  /** The two worlds differ only in the counter's table and heap, and in what is disturbed. */
  ghost predicate SameAccount(w: World, w1: World) {
    && w1.db == w.db && w1.replies == w.replies && w1.hits == w.hits && w1.committed == w.committed
    && w1.foreign == w.foreign && w1.duplicated == w.duplicated && w1.expired == w.expired
    && w1.counter.inFlight == w.counter.inFlight
  }

  lemma FirstBucketIsExact(w: World, w1: World, key: Key, bucket: Bucket)
    requires SameAccount(w, w1) && Exact(w, key) && bucket.synced == 0
    requires w.committed[key] == 0 && key !in w.counter.inFlight && (key in w.replies ==> key in w.counter.inFlight)
    requires forall b: nat :: !Owns(w.counter, key, b)
    requires w1.counter.heap == w.counter.heap + [bucket]
    requires key in w1.counter.table && w1.counter.table[key] == |w.counter.heap|
    ensures Exact(w1, key)
  {
    forall b: nat | Owns(w1.counter, key, b) ensures b == |w.counter.heap| {
      assert b < |w.counter.heap| ==> Owns(w.counter, key, b);
    }
  }

  lemma OtherKeysStayExact(w: World, w1: World, k: Key)
    requires SameAccount(w, w1) && Exact(w, k)
    requires exists bucket: Bucket :: bucket.key != k && w1.counter.heap == w.counter.heap + [bucket]
    requires k in w.counter.table ==> Owns(w.counter, k, w.counter.table[k])
    requires k in w.counter.table <==> k in w1.counter.table
    requires k in w.counter.table ==> w1.counter.table[k] == w.counter.table[k]
    ensures Exact(w1, k)
  {
    var bucket: Bucket :| bucket.key != k && w1.counter.heap == w.counter.heap + [bucket];
    forall b: nat | Owns(w1.counter, k, b) ensures Owns(w.counter, k, b) {
    }
  }

  lemma NewBucketKeepsInv(w: World, key: Key, fixed: Option<int>, now: int)
    requires Inv(w)
    ensures Inv(w.(counter := CurrentBucket(w.counter, key, fixed, now),
                   disturbed := w.disturbed + Displaced(w.counter, key, now)))
  {
    hide PendingOf, Valid, CurrentBucket, Displaced;
    var c, c1 := w.counter, CurrentBucket(w.counter, key, fixed, now);
    CurrentBucketKeeps(c, key, fixed, now);
    assert forall k :: k in c.table ==> Owns(c, k, c.table[k]) by {
      TableOwned(c);
    }
    if c1 != c {
      var w1 := w.(counter := c1, disturbed := w.disturbed + Displaced(c, key, now));
      forall k ensures KeyInv(w1, k) {
        assert KeyInv(w, k);
        PendingAppend(c.heap, NewBucket(key, fixed, now), k);
        assert Balanced(w1, k);
        assert Bounded(w1, k);
        if k !in w1.disturbed {
          assert k !in w.disturbed;
          if k == key {
            assert key !in c.table;
            NoBucketNothingCommitted(w, key);
            FirstBucketIsExact(w, w1, key, NewBucket(key, fixed, now));
          } else {
            OtherKeysStayExact(w, w1, k);
          }
        }
      }
    } else {
      WiderDisturbance(w, Displaced(c, key, now));
    }
  }

  lemma WiderDisturbance(w: World, keys: set<Key>)
    requires Inv(w)
    ensures Inv(w.(disturbed := w.disturbed + keys))
  {
    hide PendingOf, Valid;
    var w1 := w.(disturbed := w.disturbed + keys);
    forall k ensures KeyInv(w1, k) {
      assert KeyInv(w, k);
    }
  }

  lemma BeginHitKeepsInv(w: World, key: Key, fixed: Option<int>, now: int)
    requires Inv(w)
    ensures Inv(Next(w, BeginsHit(key, fixed, now)))
  {
    hide Inv, Valid, Displaced, Moves;
    InvIsValid(w);
    var w1 := w.(counter := CurrentBucket(w.counter, key, fixed, now),
                 disturbed := w.disturbed + Displaced(w.counter, key, now));
    NewBucketKeepsInv(w, key, fixed, now);
    InvIsValid(w1);
    var b := w1.counter.table[key];
    var c2 := Count(w1.counter, b);
    CountMoves(w1.counter, b);
    MoveKeepsInv(w1, c2, key, 1, 0);
    AddNothing(w.expired, key);
    var w2 := w1.(counter := c2, hits := Add(w.hits, key, 1));
    assert Inv(w2) by {
      assert w1.disturbed + {} == w1.disturbed;
    }
    if now - c2.heap[b].lastFlushAt >= FLUSH_INTERVAL_MS {
      FlushMoves(c2, key, b, fixed, now);
      SilentMoveKeepsInv(w2, FlushBucket(c2, key, b, fixed, now), key);
    }
  }

  lemma InvIsValid(w: World)
    requires Inv(w)
    ensures Valid(w.counter) && (forall k :: k in w.replies ==> k in w.counter.inFlight)
  {
  }

  /** A request waiting on its flush goes on, or a timer's flush has settled. */
  lemma ContinuationKeepsInv(w: World, step: Step)
    requires Inv(w) && Enabled(w, step) && (step.EndsHit? || step.TimerRetries? || step.DrainStarts?)
    ensures Inv(Next(w, step))
  {
    hide Inv, NoDuplicates;
    InvIsValid(w);
    var c1 := Next(w, step).counter;
    assert c1 == w.counter.(timers := c1.timers, draining := c1.draining);
    TimersKeepInv(w, c1.timers, c1.draining);
  }

  lemma TimerFiresKeepsInv(w: World, key: Key, now: int)
    requires Inv(w) && key in w.counter.timers
    ensures Inv(Next(w, TimerFires(key, now)))
  {
    hide Inv, NoDuplicates, FlushIfCurrent, Moves;
    InvIsValid(w);
    var c := w.counter;
    var b := c.timers[key].bucket;
    var c1 := c.(timers := c.timers - {key});
    var w1 := w.(counter := c1);
    TimersKeepInv(w, c1.timers, c.draining);
    if key in c.table && c.table[key] == b && c.heap[b].pending > 0 {
      InvIsValid(w1);
      FlushIfCurrentMoves(c1, key, b, now);
      MoveKeepsInv(w1, FlushIfCurrent(c1, key, b, now), key, 0, DroppedByFlush(c, key, now));
      AddNothing(w.hits, key);
    }
  }

  lemma DrainsKeepsInv(w: World, key: Key, now: int)
    requires Inv(w)
    ensures Inv(Next(w, Drains(key, now)))
  {
    hide Inv, NoDuplicates, FlushIfCurrent, Moves;
    InvIsValid(w);
    var c := w.counter;
    AddNothing(w.hits, key);
    if key in c.table && c.heap[c.table[key]].pending > 0 {
      FlushIfCurrentMoves(c, key, c.table[key], now);
      MoveKeepsInv(w, FlushIfCurrent(c, key, c.table[key], now), key, 0, DroppedByFlush(c, key, now));
    } else {
      AddNothing(w.expired, key);
      assert w.disturbed + {} == w.disturbed;
    }
  }

  // ---------------------------------------------------------------- the database answers, or not

  lemma CommitsKeepsInv(w: World, key: Key, now: int)
    requires Inv(w) && Enabled(w, Commits(key, now))
    ensures Inv(Next(w, Commits(key, now)))
  {
    hide PendingOf, Valid;
    InvIsValid(w);
    var w1 := Next(w, Commits(key, now));
    forall k ensures KeyInv(w1, k) {
      assert KeyInv(w, k);
      assert Balanced(w1, k);
      assert Bounded(w1, k);
      if k !in w1.disturbed {
        assert k !in w.disturbed && Exact(w, k);
        if k == key && key !in w.counter.table {
          NoBucketNothingCommitted(w, key);
        }
        assert Exact(w1, k);
      }
    }
  }

  lemma AcknowledgedKeepsInv(w: World, key: Key)
    requires Inv(w) && Enabled(w, Acknowledged(key))
    ensures Inv(Next(w, Acknowledged(key)))
  {
    hide PendingOf, NoDuplicates, KeyInv;
    InvIsValid(w);
    AcknowledgePending(w.counter, key, w.replies[key]);
    forall k ensures KeyInv(Next(w, Acknowledged(key)), k) {
      assert KeyInv(w, k);
      AnswerKeepsKey(w, key, k);
    }
  }

  lemma AnswerKeepsKey(w: World, key: Key, k: Key)
    requires Valid(w.counter) && Enabled(w, Acknowledged(key)) && KeyInv(w, k)
    requires PendingOf(Acknowledge(w.counter, key, w.replies[key]).heap, k) == PendingOf(w.counter.heap, k)
    requires KeyInv(w, key)
    ensures KeyInv(Next(w, Acknowledged(key)), k)
  {
    hide PendingOf, NoDuplicates;
    assert Owns(w.counter, key, w.counter.inFlight[key].bucket);
    hide Valid;
    var w1 := Next(w, Acknowledged(key));
    assert Balanced(w1, k);
    assert Bounded(w1, k);
    if k !in w1.disturbed {
      AnswerKeepsExact(w, key, k);
    }
  }

  lemma AnswerKeepsExact(w: World, key: Key, k: Key)
    requires Valid(w.counter) && Enabled(w, Acknowledged(key)) && Exact(w, k)
    ensures Exact(Next(w, Acknowledged(key)), k)
  {
    assert Owns(w.counter, key, w.counter.inFlight[key].bucket);
    var w1 := Next(w, Acknowledged(key));
    assert forall b: nat :: Owns(w1.counter, k, b) ==> Owns(w.counter, k, b);
  }

  lemma FailsKeepsInv(w: World, key: Key)
    requires Inv(w) && Enabled(w, Fails(key))
    ensures Inv(Next(w, Fails(key)))
  {
    hide PendingOf, NoDuplicates, Restore;
    InvIsValid(w);
    var w1 := Next(w, Fails(key));
    RestoreMoves(w.counter, key);
    if key !in w.replies {
      hide Inv, Valid, Moves;
      SilentMoveKeepsInv(w, Restore(w.counter, key), key);
      LateKeepsInv(w.(counter := Restore(w.counter, key)), w1.late);
    } else {
      hide Valid;
      forall k ensures KeyInv(w1, k) {
        assert KeyInv(w, k);
        LostAnswerKeepsKey(w, key, k);
      }
    }
  }

  lemma LostAnswerKeepsKey(w: World, key: Key, k: Key)
    requires Valid(w.counter) && Enabled(w, Fails(key)) && key in w.replies
    requires Moves(w.counter, Restore(w.counter, key), key, 0) && key !in Restore(w.counter, key).inFlight
    requires KeyInv(w, k)
    ensures KeyInv(Next(w, Fails(key)), k)
  {
    hide PendingOf, Valid, Restore;
    var w1 := Next(w, Fails(key));
    assert Balanced(w1, k);
    assert Bounded(w1, k);
    if k !in w1.disturbed {
      assert Exact(w, k) && k != key;
      assert Synced(w1, k) == Synced(w, k);
      assert forall b: nat :: Owns(w1.counter, k, b) ==> Owns(w.counter, k, b);
    }
  }

  lemma LateKeepsInv(w: World, late: seq<Late>)
    requires Inv(w)
    ensures Inv(w.(late := late))
  {
    hide PendingOf, Valid;
    forall k ensures KeyInv(w.(late := late), k) {
      assert KeyInv(w, k);
    }
  }

  /** A statement that is not the counter's current one runs: late, or from another instance. */
  lemma OutsideKeepsInv(w: World, step: Step)
    requires Inv(w) && Enabled(w, step) && (step.CommitsLate? || step.OtherCommits? || step.RowDeleted?)
    ensures Inv(Next(w, step))
  {
    hide KeyInv;
    InvIsValid(w);
    var w1 := Next(w, step);
    forall k ensures KeyInv(w1, k) {
      assert KeyInv(w, k);
      OutsideKeepsKey(w, step, k);
    }
  }

  lemma OutsideKeepsKey(w: World, step: Step, k: Key)
    requires Valid(w.counter) && Enabled(w, step) && (step.CommitsLate? || step.OtherCommits? || step.RowDeleted?)
    requires KeyInv(w, k)
    ensures KeyInv(Next(w, step), k)
  {
    hide PendingOf, Valid;
    var w1 := Next(w, step);
    assert w1.counter == w.counter && w1.replies == w.replies;
    assert Balanced(w1, k);
    assert Bounded(w1, k);
    if k !in w1.disturbed {
      assert Exact(w1, k);
    }
  }

  lemma StepKeepsInv(w: World, step: Step)
    requires Inv(w) && Enabled(w, step)
    ensures Inv(Next(w, step))
  {
    hide Inv, Valid, Next;
    match step
    case BeginsHit(key, fixed, now) => BeginHitKeepsInv(w, key, fixed, now);
    case EndsHit(_, _, _) => ContinuationKeepsInv(w, step);
    case Commits(key, now) => CommitsKeepsInv(w, key, now);
    case Acknowledged(key) => AcknowledgedKeepsInv(w, key);
    case Fails(key) => FailsKeepsInv(w, key);
    case TimerFires(key, now) => TimerFiresKeepsInv(w, key, now);
    case TimerRetries(_, _) => ContinuationKeepsInv(w, step);
    case DrainStarts => ContinuationKeepsInv(w, step);
    case Drains(key, now) => DrainsKeepsInv(w, key, now);
    case _ => OutsideKeepsInv(w, step);
  }

  // ---------------------------------------------------------------- whole runs

  /** A fresh counter over any database: rows already there count as other instances' work. */
  ghost predicate Starts(w: World) {
    && w.counter == Counter([], map[], [], map[], map[], false)
    && w.replies == map[] && w.late == []
    && w.hits == multiset{} && w.committed == multiset{} && w.duplicated == multiset{} && w.expired == multiset{}
    && (forall k :: k in w.db ==> w.db[k].count <= w.foreign[k] && k in w.disturbed)
    && (forall k :: w.foreign[k] > 0 ==> k in w.disturbed)
  }

  ghost predicate IsRun(w: World, steps: seq<Step>)
    decreases |steps|
  {
    Valid(w.counter) && (steps != [] ==> Enabled(w, steps[0]) && IsRun(Next(w, steps[0]), steps[1..]))
  }

  ghost function Run(w: World, steps: seq<Step>): World
    requires IsRun(w, steps)
    decreases |steps|
  {
    if steps == [] then w else Run(Next(w, steps[0]), steps[1..])
  }

  lemma StartHasInv(w: World)
    requires Starts(w)
    ensures Inv(w)
  {
    forall k ensures KeyInv(w, k) {
      assert Balanced(w, k) && Bounded(w, k);
    }
  }

  lemma {:induction false} RunKeepsInv(w: World, steps: seq<Step>)
    requires Inv(w) && IsRun(w, steps)
    ensures Inv(Run(w, steps))
    decreases |steps|
  {
    hide Inv, Next;
    if steps != [] {
      StepKeepsInv(w, steps[0]);
      RunKeepsInv(Next(w, steps[0]), steps[1..]);
    }
  }

  // ---------------------------------------------------------------- main results

  /** Unflushed increments in the key's bucket, if it has one. */
  function Live(c: Counter, key: Key): nat {
    if key in c.table && c.table[key] < |c.heap| then c.heap[c.table[key]].pending else 0
  }

  /** Unflushed increments in buckets of the key that expired or were pushed out. */
  function Retired(c: Counter, key: Key): nat {
    if key in c.table && c.table[key] < |c.heap|
    then PendingOf(c.heap[c.table[key] := c.heap[c.table[key]].(pending := 0)], key)
    else PendingOf(c.heap, key)
  }

  /**
    Main result 1, at every point of every run: each counted request is in
    exactly one place - waiting in the live bucket, captured by the key's one
    flush in flight, committed, or dropped with a window or a bucket - and the
    only requests there twice are those of a commit whose answer was lost.
   */
  lemma EveryHitAccountedFor(w: World, steps: seq<Step>, key: Key)
    requires Starts(w) && IsRun(w, steps)
    ensures var w1 := Run(w, steps);
            w1.hits[key] + w1.duplicated[key]
              == Live(w1.counter, key) + Unsent(w1, key) + w1.committed[key]
                  + (Retired(w1.counter, key) + w1.expired[key])
  {
    StartHasInv(w);
    RunKeepsInv(w, steps);
    AccountOfKey(Run(w, steps), key);
  }

  lemma AccountOfKey(w: World, key: Key)
    requires Inv(w)
    ensures w.hits[key] + w.duplicated[key]
         == Live(w.counter, key) + Unsent(w, key) + w.committed[key] + (Retired(w.counter, key) + w.expired[key])
  {
    assert KeyInv(w, key);
    var c := w.counter;
    if key in c.table {
      PendingUpdate(c.heap, c.table[key], c.heap[c.table[key]].(pending := 0), key);
    }
  }

  /**
    Main result 2: no request is answered with a count above the requests really
    made for its key, here or at other instances, plus the ones counted twice.
   */
  lemma CountsNeverExceedUse(w: World, steps: seq<Step>, b: nat)
    requires Starts(w) && IsRun(w, steps) && b < |Run(w, steps).counter.heap|
    ensures var w1 := Run(w, steps);
            var key := w1.counter.heap[b].key;
            Counted(w1.counter, b) <= w1.hits[key] + w1.foreign[key] + w1.duplicated[key]
  {
    StartHasInv(w);
    RunKeepsInv(w, steps);
    var w1 := Run(w, steps);
    var key := w1.counter.heap[b].key;
    assert KeyInv(w1, key) && Owns(w1.counter, key, b);
    PendingAtLeast(w1.counter.heap, b);
  }

  /** A step that commits an increment the counter has restored or is about to restore. */
  predicate LosesAnswer(w: World, step: Step, key: Key) {
    || (step.Fails? && step.key == key && key in w.replies)
    || (step.CommitsLate? && step.i < |w.late| && w.late[step.i].key == key)
  }

  ghost predicate NoAnswerLost(w: World, steps: seq<Step>, key: Key)
    requires IsRun(w, steps)
    decreases |steps|
  {
    steps != [] ==> !LosesAnswer(w, steps[0], key) && NoAnswerLost(Next(w, steps[0]), steps[1..], key)
  }

  lemma {:induction false} NoAnswerLostNoDuplicates(w: World, steps: seq<Step>, key: Key)
    requires IsRun(w, steps) && NoAnswerLost(w, steps, key)
    ensures Run(w, steps).duplicated[key] == w.duplicated[key]
    decreases |steps|
  {
    if steps != [] {
      assert Next(w, steps[0]).duplicated[key] == w.duplicated[key];
      NoAnswerLostNoDuplicates(Next(w, steps[0]), steps[1..], key);
    }
  }

  /** `hitQuota` and `hitRateLimit`: whether a request is rejected. */
  predicate Exceeded(count: nat, limit: nat) {
    count > limit
  }

  /** Main result 3: while no answer is lost, a key within its quota is never rejected, whatever else fails. */
  lemma WithinQuotaNeverRejected(w: World, steps: seq<Step>, b: nat, limit: nat)
    requires Starts(w) && IsRun(w, steps) && b < |Run(w, steps).counter.heap|
    requires var key := Run(w, steps).counter.heap[b].key;
             NoAnswerLost(w, steps, key) && Run(w, steps).hits[key] + Run(w, steps).foreign[key] <= limit
    ensures !Exceeded(Counted(Run(w, steps).counter, b), limit)
  {
    CountsNeverExceedUse(w, steps, b);
    NoAnswerLostNoDuplicates(w, steps, Run(w, steps).counter.heap[b].key);
  }

  /**
    Main result 4: for a key that only this instance counts, within one window
    and with no answer lost, the count is exact: it falls short of the requests
    made by what is in flight and nothing else.
   */
  lemma UndisturbedCountIsExact(w: World, steps: seq<Step>, key: Key)
    requires Starts(w) && IsRun(w, steps)
    requires key in Run(w, steps).counter.table && key !in Run(w, steps).disturbed
    ensures var c := Run(w, steps).counter;
            c.table[key] < |c.heap| && Counted(c, c.table[key]) + InFlightOf(c, key) == Run(w, steps).hits[key]
  {
    StartHasInv(w);
    RunKeepsInv(w, steps);
    var w1 := Run(w, steps);
    assert KeyInv(w1, key);
    var b := w1.counter.table[key];
    assert forall i: nat :: i < |w1.counter.heap| && w1.counter.heap[i].key == key ==> Owns(w1.counter, key, i);
    PendingOfOnly(w1.counter.heap, key, b);
  }

  predicate IsLive(c: Counter, b: nat)
    requires b < |c.heap|
  {
    c.heap[b].key in c.table && c.table[c.heap[b].key] == b
  }

  /**
    Main result 5: a bucket that left the table never comes back, never loses an
    increment to a flush, and only grows by a failed flush it had started.
   */
  lemma RetiredStaysRetired(w: World, step: Step, b: nat)
    requires Inv(w) && Enabled(w, step) && b < |w.counter.heap|
    requires !IsLive(w.counter, b)
    ensures var c1 := Next(w, step).counter;
            && b < |c1.heap| && c1.heap[b].key == w.counter.heap[b].key
            && !IsLive(c1, b)
            && (if step.Fails? && w.counter.inFlight[step.key].bucket == b
                then c1.heap[b].pending == w.counter.heap[b].pending + w.counter.inFlight[step.key].delta
                else c1.heap[b].pending == w.counter.heap[b].pending)
  {
    hide Displaced, BeginHit, FireTimer, DrainKey, Upsert, DroppedByFlush, Restore, Acknowledge;
    InvIsValid(w);
    hide Inv, NoDuplicates;
    if step.BeginsHit? {
      RetiredBuckets(w.counter, step.key, step.fixed, step.now, b);
    } else if step.TimerFires? || step.Drains? {
      RetiredInFlush(w.counter, step.key, step.now, b);
    } else if step.Fails? || step.Acknowledged? {
      hide IsLive;
      var own := w.counter.inFlight[step.key].bucket;
      assert Owns(w.counter, step.key, own);
      RetiredOnSettle(w.counter, step.key, if step.Acknowledged? then w.replies[step.key] else Row(0, 0), b);
    }
  }

  /** A flush outside a request touches one bucket, and captures from it only before its window ends. */
  lemma FlushEffects(c: Counter, key: Key, b: nat, now: int)
    requires b < |c.heap|
    ensures var c1 := FlushIfCurrent(c, key, b, now);
            && |c1.heap| == |c.heap| && c1.table == c.table && c1.order == c.order && c1.heap[b].key == c.heap[b].key
            && (forall i :: 0 <= i < |c.heap| && i != b ==> c1.heap[i] == c.heap[i])
            && (forall k :: k in c1.inFlight && k !in c.inFlight ==>
                  k == key && c1.inFlight[k].bucket == b && c1.heap[b].pending == 0 && c1.heap[b].resetAt > now)
  {
    hide FlushBucket;
    if c.heap[b].resetAt > now {
      FlushBucketEffects(c, key, b, c.heap[b].fixed, now);
    }
  }

  lemma FlushBucketEffects(c: Counter, key: Key, b: nat, fixed: Option<int>, now: int)
    requires b < |c.heap|
    ensures var c1 := FlushBucket(c, key, b, fixed, now);
            && |c1.heap| == |c.heap| && c1.table == c.table && c1.order == c.order && c1.heap[b].key == c.heap[b].key
            && c1.heap[b].resetAt == c.heap[b].resetAt
            && (forall i :: 0 <= i < |c.heap| && i != b ==> c1.heap[i] == c.heap[i])
            && (forall k :: k in c1.inFlight && k !in c.inFlight ==>
                  k == key && c1.inFlight[k].bucket == b && c1.heap[b].pending == 0)
  {
  }

  lemma RetiredInFlush(c: Counter, key: Key, now: int, b: nat)
    requires Valid(c) && b < |c.heap| && !IsLive(c, b)
    ensures var c1 := DrainKey(c, key, now);
            b < |c1.heap| && c1.heap[b] == c.heap[b] && !IsLive(c1, b)
    ensures key in c.timers ==>
              var c1 := FireTimer(c, key, now);
              b < |c1.heap| && c1.heap[b] == c.heap[b] && !IsLive(c1, b)
  {
    hide FlushIfCurrent, NoDuplicates;
    if key in c.table {
      FlushEffects(c, key, c.table[key], now);
      FlushEffects(c.(timers := c.timers - {key}), key, c.table[key], now);
    }
  }

  lemma RetiredOnSettle(c: Counter, key: Key, row: Row, b: nat)
    requires Valid(c) && b < |c.heap| && !IsLive(c, b) && key in c.inFlight
    ensures var c1 := Acknowledge(c, key, row);
            && |c1.heap| == |c.heap| && c1.heap[b].key == c.heap[b].key && !IsLive(c1, b)
            && c1.heap[b].pending == c.heap[b].pending
    ensures var c1 := Restore(c, key);
            && |c1.heap| == |c.heap| && c1.heap[b].key == c.heap[b].key && !IsLive(c1, b)
            && c1.heap[b].pending
                 == c.heap[b].pending + (if c.inFlight[key].bucket == b then c.inFlight[key].delta else 0)
  {
  }

  lemma TimelyFlush(c: Counter, key: Key, now: int, started: Key)
    requires Valid(c) && started !in c.inFlight
    ensures TimelyStart(c, DrainKey(c, key, now), key, now, started)
    ensures key in c.timers ==> TimelyStart(c, FireTimer(c, key, now), key, now, started)
  {
    hide FlushIfCurrent, NoDuplicates;
    if key in c.table {
      FlushEffects(c, key, c.table[key], now);
      FlushEffects(c.(timers := c.timers - {key}), key, c.table[key], now);
    }
  }

  ghost predicate TimelyStart(c: Counter, c1: Counter, key: Key, now: int, started: Key) {
    started in c1.inFlight ==>
      && started == key
      && c1.inFlight[key].bucket < |c1.heap|
      && c1.heap[c1.inFlight[key].bucket].key == key
      && IsLive(c1, c1.inFlight[key].bucket)
      && c1.heap[c1.inFlight[key].bucket].pending == 0
      && c1.heap[c1.inFlight[key].bucket].resetAt > now
  }

  lemma RetiredBuckets(c: Counter, key: Key, fixed: Option<int>, now: int, b: nat)
    requires Valid(c) && b < |c.heap| && !IsLive(c, b)
    ensures var c1 := BeginHit(c, key, fixed, now);
            b < |c1.heap| && c1.heap[b] == c.heap[b] && !IsLive(c1, b)
  {
    hide PendingOf, NoDuplicates, Displaced, CurrentBucket;
    CurrentBucketKeeps(c, key, fixed, now);
  }

  /**
    Main result 6: a flush starts only in a live bucket, and outside its window
    if and only if a request starts it that names an end already past while its
    key has no open window. Otherwise no window's increments are sent into the next.
   */
  lemma FlushStartsInItsWindow(w: World, step: Step, key: Key)
    requires Inv(w) && Enabled(w, step)
    requires key !in w.counter.inFlight && key in Next(w, step).counter.inFlight
    ensures (step.BeginsHit? || step.TimerFires? || step.Drains?) && step.key == key
    ensures var c1 := Next(w, step).counter;
            var b := c1.inFlight[key].bucket;
            && b < |c1.heap| && c1.heap[b].key == key && IsLive(c1, b)
            && c1.heap[b].pending == 0
            && (c1.heap[b].resetAt <= step.now <==>
                  step.BeginsHit? && NamesPastEnd(w.counter, key, step.fixed, step.now))
  {
    hide Displaced, BeginHit, FireTimer, DrainKey, Upsert, DroppedByFlush;
    InvIsValid(w);
    hide Inv, NoDuplicates;
    if step.BeginsHit? {
      HitFlushes(w.counter, step.key, step.fixed, step.now, key);
    } else if step.TimerFires? || step.Drains? {
      TimelyFlush(w.counter, step.key, step.now, key);
    }
  }

  lemma HitFlushes(c: Counter, hit: Key, fixed: Option<int>, now: int, key: Key)
    requires Valid(c) && key !in c.inFlight && key in BeginHit(c, hit, fixed, now).inFlight
    ensures key == hit
    ensures var c1 := BeginHit(c, hit, fixed, now);
            var b := c1.inFlight[key].bucket;
            && b < |c1.heap| && c1.heap[b].key == key && IsLive(c1, b)
            && c1.heap[b].pending == 0
            && (c1.heap[b].resetAt <= now <==> NamesPastEnd(c, key, fixed, now))
  {
    hide PendingOf, NoDuplicates, Displaced, CurrentBucket;
    CurrentBucketKeeps(c, hit, fixed, now);
  }

  const EMPTY_COUNTER := Counter([], map[], [], map[], map[], false)

  /** Such a request: the month its end was taken from is over when it is counted, and its flush starts at once. */
  lemma FlushPastItsWindow(key: Key, end: int)
    requires end >= FLUSH_INTERVAL_MS
    ensures var c := BeginHit(EMPTY_COUNTER, key, Some(end), end);
            key in c.inFlight && c.inFlight[key] == Flush(0, 1, Some(end)) && c.heap[0].resetAt <= end
  {
  }

  // ---------------------------------------------------------------- memory

  /** The table keeps to its bound unless it holds the empty key, which is never pushed out. */
  predicate WithinBound(c: Counter) {
    |c.order| <= MAX_BUCKETS || "" in c.order
  }

  /** Only a request brings a key into the table, and only its own. */
  lemma StaysWithinBound(w: World, step: Step)
    requires Inv(w) && Enabled(w, step) && WithinBound(w.counter)
    ensures WithinBound(Next(w, step).counter)
    ensures forall k :: k in Next(w, step).counter.order ==> k in w.counter.order || (step.BeginsHit? && k == step.key)
  {
    hide Displaced, BeginHit, FireTimer, DrainKey, Upsert, DroppedByFlush;
    InvIsValid(w);
    hide Inv, NoDuplicates;
    if step.BeginsHit? {
      HitWithinBound(w.counter, step.key, step.fixed, step.now);
    } else if step.TimerFires? || step.Drains? {
      FlushKeepsOrder(w.counter, step.key, step.now);
    }
  }

  lemma FlushKeepsOrder(c: Counter, key: Key, now: int)
    requires Valid(c)
    ensures DrainKey(c, key, now).order == c.order
    ensures key in c.timers ==> FireTimer(c, key, now).order == c.order
  {
    hide FlushIfCurrent, NoDuplicates;
    if key in c.table {
      FlushEffects(c, key, c.table[key], now);
      FlushEffects(c.(timers := c.timers - {key}), key, c.table[key], now);
    }
  }

  lemma HitWithinBound(c: Counter, key: Key, fixed: Option<int>, now: int)
    requires Valid(c) && WithinBound(c)
    ensures WithinBound(BeginHit(c, key, fixed, now))
    ensures forall k :: k in BeginHit(c, key, fixed, now).order ==> k in c.order || k == key
  {
    hide WithinBound, RecordBucket, Remove, NoDuplicates;
    if !(key in c.table && c.heap[c.table[key]].resetAt > now) {
      var c0 := if key in c.table then Remove(c, key) else c;
      Removed(c, key);
      RecordWithinBound(c, c0, NewBucket(key, fixed, now));
    }
    assert BeginHit(c, key, fixed, now).order == CurrentBucket(c, key, fixed, now).order;
    OnlyOrderMatters(CurrentBucket(c, key, fixed, now), BeginHit(c, key, fixed, now));
  }

  lemma OnlyOrderMatters(c: Counter, c1: Counter)
    requires c1.order == c.order
    ensures WithinBound(c) == WithinBound(c1)
  {
  }

  lemma RecordWithinBound(c: Counter, c0: Counter, bucket: Bucket)
    requires Valid(c) && WithinBound(c) && bucket.key !in c0.table
    requires c0 == if bucket.key in c.table then Remove(c, bucket.key) else c
    ensures WithinBound(RecordBucket(c0, bucket))
    ensures forall k :: k in RecordBucket(c0, bucket).order ==> k in c.order || k == bucket.key
  {
    hide Erase, NoDuplicates;
    EraseOrder(c.order, bucket.key);
    EraseShrinks(c.order, bucket.key);
    var evicted := Evicted(c0, bucket.key);
    if evicted.Some? {
      EraseOrder(c0.order, evicted.value);
      EraseShrinks(c0.order, evicted.value);
    }
    var order := RecordBucket(c0, bucket).order;
    assert order[|order| - 1] == bucket.key;
    assert "" in c.order ==> "" in order;
  }

  lemma {:induction false} RunWithinBound(w: World, steps: seq<Step>)
    requires Inv(w) && IsRun(w, steps) && WithinBound(w.counter) && "" !in w.counter.order
    requires forall i :: 0 <= i < |steps| && steps[i].BeginsHit? ==> steps[i].key != ""
    ensures WithinBound(Run(w, steps).counter) && "" !in Run(w, steps).counter.order
    decreases |steps|
  {
    hide Inv, Next, WithinBound;
    if steps != [] {
      StepKeepsInv(w, steps[0]);
      StaysWithinBound(w, steps[0]);
      RunWithinBound(Next(w, steps[0]), steps[1..]);
    }
  }

  /**
    Main result 7: as callers never pass an empty key, at no point of any run are there more than
    10000 buckets in the table.
   */
  lemma TableIsBounded(w: World, steps: seq<Step>)
    requires Starts(w) && IsRun(w, steps)
    requires forall i :: 0 <= i < |steps| && steps[i].BeginsHit? ==> steps[i].key != ""
    ensures |Run(w, steps).counter.table| <= 10_000
  {
    StartHasInv(w);
    RunKeepsInv(w, steps);
    RunWithinBound(w, steps);
    var c := Run(w, steps).counter;
    SequenceCovers(c.order, c.table.Keys);
  }
}
