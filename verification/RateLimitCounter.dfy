/**
  The rate-limit counter as it runs: bucket objects that the table, flushes in
  flight, timers and waiting requests share. `model` is the value the
  specification speaks about; every method moves both in the same way.
 */
module RateLimitCounters {
  import opened Common
  import opened RateLimitSpec
  import opened RateLimitDrain
  import opened RateLimitProofs

  class RateLimitBucket {
    var pendingDelta: nat
    var syncedCount: nat
    var resetAt: int
    var lastFlushAt: int
    const fixedResetAt: Option<int>
    ghost const key: Key
    ghost const id: nat

    constructor (key: Key, fixedResetAt: Option<int>, now: int, ghost id: nat)
      ensures this.id == id && Value() == NewBucket(key, fixedResetAt, now)
    {
      pendingDelta, syncedCount, lastFlushAt := 0, 0, 0;
      resetAt := if fixedResetAt.Some? then fixedResetAt.value else now + WINDOW_MS;
      this.fixedResetAt := fixedResetAt;
      this.key, this.id := key, id;
    }

    ghost function Value(): Bucket
      reads this
    {
      Bucket(key, pendingDelta, syncedCount, resetAt, lastFlushAt, fixedResetAt)
    }
  }

  datatype FlushRequest = FlushRequest(bucket: RateLimitBucket, delta: nat, fixedResetAt: Option<int>)

  datatype FlushTimer = FlushTimer(bucket: RateLimitBucket, due: int)

  /** The bucket object with this identity. */
  ghost predicate Made(made: seq<RateLimitBucket>, b: RateLimitBucket, id: nat) {
    id < |made| && made[id] == b
  }

  ghost predicate TableMatches(made: seq<RateLimitBucket>, buckets: map<Key, RateLimitBucket>, table: map<Key, nat>) {
    && buckets.Keys == table.Keys
    && forall k :: k in buckets ==> Made(made, buckets[k], table[k])
  }

  ghost predicate FlightsMatch(made: seq<RateLimitBucket>, requests: map<Key, FlushRequest>, flights: map<Key, Flush>) {
    && requests.Keys == flights.Keys
    && forall k :: k in requests ==>
         && Made(made, requests[k].bucket, flights[k].bucket)
         && flights[k].delta == requests[k].delta
         && flights[k].fixed == requests[k].fixedResetAt
  }

  ghost predicate TimersMatch(made: seq<RateLimitBucket>, armed: map<Key, FlushTimer>, timers: map<Key, Timer>) {
    && armed.Keys == timers.Keys
    && forall k :: k in armed ==> Made(made, armed[k].bucket, timers[k].bucket) && timers[k].due == armed[k].due
  }

  lemma SameFlights(made: seq<RateLimitBucket>, requests: map<Key, FlushRequest>, flights: map<Key, Flush>, key: Key)
    requires FlightsMatch(made, requests, flights)
    ensures key in requests <==> key in flights
    ensures key in requests ==>
              && Made(made, requests[key].bucket, flights[key].bucket)
              && flights[key] == Flush(flights[key].bucket, requests[key].delta, requests[key].fixedResetAt)
  {
    assert key in requests <==> key in requests.Keys;
  }

  lemma SameBucket(made: seq<RateLimitBucket>, buckets: map<Key, RateLimitBucket>, table: map<Key, nat>, key: Key,
                   b: RateLimitBucket)
    requires TableMatches(made, buckets, table)
    requires Made(made, b, b.id) && (forall i :: 0 <= i < |made| ==> made[i].id == i)
    ensures key in buckets <==> key in table
    ensures key in buckets ==> (buckets[key] == b <==> table[key] == b.id)
  {
  }

  lemma FlightStarted(made: seq<RateLimitBucket>, requests: map<Key, FlushRequest>, flights: map<Key, Flush>,
                      key: Key, request: FlushRequest, flush: Flush)
    requires FlightsMatch(made, requests, flights)
    requires Made(made, request.bucket, flush.bucket)
    requires flush.delta == request.delta && flush.fixed == request.fixedResetAt
    ensures FlightsMatch(made, requests[key := request], flights[key := flush])
  {
  }

  lemma FlightEnded(made: seq<RateLimitBucket>, requests: map<Key, FlushRequest>, flights: map<Key, Flush>, key: Key)
    requires FlightsMatch(made, requests, flights)
    ensures FlightsMatch(made, requests - {key}, flights - {key})
  {
  }

  lemma BucketAdded(made: seq<RateLimitBucket>, b: RateLimitBucket, buckets: map<Key, RateLimitBucket>,
                    table: map<Key, nat>,
                    requests: map<Key, FlushRequest>, flights: map<Key, Flush>,
                    armed: map<Key, FlushTimer>, timers: map<Key, Timer>, key: Key)
    requires TableMatches(made, buckets, table) && FlightsMatch(made, requests, flights)
             && TimersMatch(made, armed, timers)
    ensures TableMatches(made + [b], buckets[key := b], table[key := |made|])
    ensures FlightsMatch(made + [b], requests, flights) && TimersMatch(made + [b], armed, timers)
    ensures Made(made + [b], b, |made|)
  {
  }

  class RateLimitCounter {
    const scheduled: bool
    var buckets: map<Key, RateLimitBucket>
    var order: seq<Key>
    var flushInFlight: map<Key, FlushRequest>
    var flushTimers: map<Key, FlushTimer>
    var draining: bool
    ghost var made: seq<RateLimitBucket>
    ghost var model: Counter

    ghost predicate HeapMatches(heap: seq<Bucket>)
      reads this`made, made
    {
      && |made| == |heap|
      && forall i :: 0 <= i < |made| ==> made[i].id == i && made[i].Value() == heap[i]
    }

    ghost predicate Valid()
      reads this, made
    {
      && HeapMatches(model.heap)
      && TableMatches(made, buckets, model.table) && order == model.order
      && FlightsMatch(made, flushInFlight, model.inFlight)
      && TimersMatch(made, flushTimers, model.timers)
      && draining == model.draining
      && RateLimitSpec.Valid(model)
    }

    lemma Reads(b: RateLimitBucket)
      requires HeapMatches(model.heap) && Made(made, b, b.id)
      ensures b.id < |model.heap| && b.Value() == model.heap[b.id]
      ensures forall i :: 0 <= i < |made| ==> made[i].id == i
    {
    }

    lemma BucketOf(key: Key)
      requires Valid()
      ensures |made| == |model.heap|
      ensures key in buckets <==> key in model.table
      ensures key in buckets ==>
                var b := buckets[key];
                && Made(made, b, b.id) && b.id == model.table[key] && b.key == key
                && b.id < |model.heap| && b.Value() == model.heap[b.id]
    {
      hide NoDuplicates;
      assert key in buckets <==> key in buckets.Keys;
    }

    lemma FlushIsMade(key: Key)
      requires Valid() && key in flushInFlight
      ensures var b := flushInFlight[key].bucket;
              && Made(made, b, b.id) && key in model.inFlight && b.id == model.inFlight[key].bucket && b.key == key
              && model.inFlight[key].delta == flushInFlight[key].delta
    {
    }

    twostate lemma OneBucketChanged(b: RateLimitBucket)
      requires old(HeapMatches(model.heap)) && made == old(made) && Made(made, b, b.id) && b.id < |old(model.heap)|
      requires forall other :: other in made && other != b ==> unchanged(other)
      requires model.heap == old(model.heap)[b.id := b.Value()]
      ensures HeapMatches(model.heap)
    {
      forall i | 0 <= i < |made| ensures made[i].id == i && made[i].Value() == model.heap[i] {
        assert old(made[i].id) == i;
        if i != b.id {
          assert made[i] in made && made[i] != b;
        }
      }
    }

    twostate lemma OneBucketMade(b: RateLimitBucket)
      requires old(HeapMatches(model.heap)) && made == old(made) + [b] && b.id == |old(made)|
      requires forall other :: other in old(made) ==> unchanged(other)
      ensures HeapMatches(old(model.heap) + [b.Value()])
    {
      forall i | 0 <= i < |made| - 1 ensures made[i].id == i && made[i].Value() == old(model.heap)[i] {
        assert made[i] == old(made)[i] && old(made)[i] in old(made) && old(made[i].id) == i;
      }
    }

    constructor (scheduled: bool)
      ensures this.scheduled == scheduled && Valid() && model == Counter([], map[], [], map[], map[], false)
    {
      this.scheduled := scheduled;
      buckets, order, flushInFlight, flushTimers, draining := map[], [], map[], map[], false;
      made, model := [], Counter([], map[], [], map[], map[], false);
    }

    method FlushBucket(key: Key, bucket: RateLimitBucket, fixedResetAt: Option<int>, now: int)
      requires Valid() && Made(made, bucket, bucket.id) && bucket.key == key
      modifies this`flushInFlight, this`model, bucket
      ensures Valid() && model == RateLimitSpec.FlushBucket(old(model), key, bucket.id, fixedResetAt, now)
    {
      hide RateLimitSpec.Valid, Moves, HeapMatches, TableMatches, TimersMatch, FlightsMatch;
      Reads(bucket);
      SameFlights(made, flushInFlight, model.inFlight, key);
      FlushMoves(model, key, bucket.id, fixedResetAt, now);
      if key in flushInFlight {
        return;
      }
      var delta := bucket.pendingDelta;
      model := RateLimitSpec.FlushBucket(model, key, bucket.id, fixedResetAt, now);
      bucket.lastFlushAt := now;
      if delta > 0 {
        bucket.pendingDelta := 0;
        FlightStarted(made, flushInFlight, old(model.inFlight), key,
                      FlushRequest(bucket, delta, fixedResetAt), Flush(bucket.id, delta, fixedResetAt));
        flushInFlight := flushInFlight[key := FlushRequest(bucket, delta, fixedResetAt)];
      }
      OneBucketChanged(bucket);
    }

    method FlushIfCurrent(key: Key, bucket: RateLimitBucket, now: int)
      requires Valid() && Made(made, bucket, bucket.id) && bucket.key == key
      modifies this`flushInFlight, this`model, bucket
      ensures Valid() && model == RateLimitSpec.FlushIfCurrent(old(model), key, bucket.id, now)
    {
      hide RateLimitSpec.Valid, Moves, RateLimitSpec.FlushBucket, HeapMatches, TableMatches, FlightsMatch, TimersMatch;
      Reads(bucket);
      if bucket.resetAt <= now {
        FlushIfCurrentMoves(model, key, bucket.id, now);
        model := RateLimitSpec.FlushIfCurrent(model, key, bucket.id, now);
        bucket.pendingDelta := 0;
        OneBucketChanged(bucket);
        return;
      }
      FlushBucket(key, bucket, bucket.fixedResetAt, now);
    }

    method Remove(key: Key)
      requires Valid()
      modifies this`buckets, this`order, this`model
      ensures Valid() && model == RateLimitSpec.Remove(old(model), key)
    {
      Removed(model, key);
      model := RateLimitSpec.Remove(model, key);
      buckets, order := buckets - {key}, Erase(order, key);
    }

    method MakeRoom(key: Key)
      requires Valid()
      modifies this`buckets, this`order, this`model
      ensures Valid() && model == RateLimitSpec.MakeRoom(old(model), key)
    {
      hide RateLimitSpec.Remove;
      if key in buckets {
        Remove(key);
      } else if |order| >= MAX_BUCKETS {
        var oldest := order[0];
        if oldest != "" {
          Remove(oldest);
        }
      }
    }

    method RecordBucket(key: Key, bucket: RateLimitBucket)
      requires Valid() && bucket.key == key && bucket.id == |made|
      modifies this`buckets, this`order, this`made, this`model
      ensures Valid() && made == old(made) + [bucket]
      ensures model == RateLimitSpec.RecordBucket(old(model), bucket.Value())
    {
      hide RateLimitSpec.MakeRoom, RateLimitSpec.Valid, HeapMatches, TableMatches, FlightsMatch, TimersMatch, Made;
      Recorded(model, bucket.Value());
      MadeRoom(model, key);
      MakeRoom(key);
      BucketAdded(made, bucket, buckets, model.table, flushInFlight, model.inFlight, flushTimers, model.timers, key);
      label roomMade:
      buckets, order := buckets[key := bucket], order + [key];
      made := made + [bucket];
      OneBucketMade@roomMade(bucket);
      model := Append(model, bucket.Value());
    }

    method CurrentBucket(key: Key, fixedResetAt: Option<int>, now: int) returns (bucket: RateLimitBucket)
      requires Valid()
      modifies this`buckets, this`order, this`made, this`model
      ensures Valid() && model == RateLimitSpec.CurrentBucket(old(model), key, fixedResetAt, now)
      ensures Made(made, bucket, bucket.id) && bucket.key == key && model.table[key] == bucket.id
      ensures made == old(made) || (made == old(made) + [bucket] && fresh(bucket))
    {
      hide RateLimitSpec.Remove, RateLimitSpec.RecordBucket, RateLimitSpec.Valid;
      hide HeapMatches, TableMatches, FlightsMatch, TimersMatch;
      BucketOf(key);
      if key in buckets && buckets[key].resetAt > now {
        return buckets[key];
      }
      Removed(model, key);
      if key in buckets {
        Remove(key);
      }
      bucket := new RateLimitBucket(key, fixedResetAt, now, |made|);
      Recorded(model, bucket.Value());
      RecordBucket(key, bucket);
    }

    method Increment(bucket: RateLimitBucket)
      requires Valid() && Made(made, bucket, bucket.id)
      modifies this`model, bucket`pendingDelta
      ensures Valid() && model == Count(old(model), bucket.id)
    {
      hide RateLimitSpec.Valid, Moves, HeapMatches, TableMatches, FlightsMatch, TimersMatch;
      Reads(bucket);
      CountMoves(model, bucket.id);
      model := Count(model, bucket.id);
      bucket.pendingDelta := bucket.pendingDelta + 1;
      OneBucketChanged(bucket);
    }

    /** `hit` up to its `await`; `bucket` is what the request holds on to. */
    method BeginHit(key: Key, fixedResetAt: Option<int>, now: int) returns (bucket: RateLimitBucket)
      requires Valid()
      modifies this, made
      ensures Valid() && model == RateLimitSpec.BeginHit(old(model), key, fixedResetAt, now)
      ensures Made(made, bucket, bucket.id) && bucket.key == key
      ensures made == old(made) || (made == old(made) + [bucket] && fresh(bucket))
    {
      hide RateLimitSpec.Valid, Moves, RateLimitSpec.FlushBucket, RateLimitSpec.CurrentBucket;
      bucket := CurrentBucket(key, fixedResetAt, now);
      Increment(bucket);
      if now - bucket.lastFlushAt >= FLUSH_INTERVAL_MS {
        FlushBucket(key, bucket, fixedResetAt, now);
      }
    }

    method ScheduleFlush(key: Key, bucket: RateLimitBucket, now: int)
      requires Valid() && Made(made, bucket, bucket.id) && bucket.key == key
      modifies this`flushTimers, this`model
      ensures Valid() && model == Schedule(old(model), bucket.id, now)
    {
      hide RateLimitSpec.Valid, HeapMatches, TableMatches, FlightsMatch, TimersMatch;
      Reads(bucket);
      TimerArmed(key, bucket, now);
      if draining || key in flushTimers {
        return;
      }
      model := Schedule(model, bucket.id, now);
      var delay := Max(1_000, bucket.lastFlushAt + FLUSH_INTERVAL_MS - now);
      flushTimers := flushTimers[key := FlushTimer(bucket, now + delay)];
    }

    lemma TimerArmed(key: Key, bucket: RateLimitBucket, now: int)
      requires Valid() && Made(made, bucket, bucket.id) && bucket.key == key
      ensures bucket.id < |model.heap| && RateLimitSpec.Valid(Schedule(model, bucket.id, now))
      ensures key in flushTimers <==> key in model.timers
      ensures var due := now + Max(1_000, bucket.lastFlushAt + FLUSH_INTERVAL_MS - now);
              TimersMatch(made, flushTimers[key := FlushTimer(bucket, due)], model.timers[key := Timer(bucket.id, due)])
    {
      hide NoDuplicates, TableMatches, FlightsMatch;
      assert key in flushTimers <==> key in flushTimers.Keys;
    }

    /** `hit` after its `await`: the count and window end it answers with. */
    method EndHit(key: Key, bucket: RateLimitBucket, now: int) returns (count: nat, resetAt: int)
      requires Valid() && Made(made, bucket, bucket.id) && bucket.key == key
      modifies this`flushTimers, this`model
      ensures Valid() && model == RateLimitSpec.EndHit(old(model), bucket.id, scheduled, now)
      ensures count == Counted(model, bucket.id) && resetAt == model.heap[bucket.id].resetAt
    {
      if scheduled && bucket.pendingDelta > 0 {
        ScheduleFlush(key, bucket, now);
      }
      return bucket.syncedCount + bucket.pendingDelta, bucket.resetAt;
    }

    /** The flush in flight for this key returned its row. */
    method OnRow(key: Key, row: Row)
      requires Valid() && key in flushInFlight
      modifies this`flushInFlight, this`model, flushInFlight[key].bucket
      ensures Valid() && key in old(model.inFlight) && model == Acknowledge(old(model), key, row)
      ensures flushInFlight == old(flushInFlight) - {key}
    {
      hide RateLimitSpec.Valid, HeapMatches, TableMatches, FlightsMatch, TimersMatch;
      FlushIsMade(key);
      var bucket := flushInFlight[key].bucket;
      Reads(bucket);
      AcknowledgePending(model, key, row);
      FlightEnded(made, flushInFlight, model.inFlight, key);
      model := Acknowledge(model, key, row);
      bucket.syncedCount, bucket.resetAt := row.count, row.resetAt;
      flushInFlight := flushInFlight - {key};
      OneBucketChanged(bucket);
    }

    /** It failed. */
    method OnError(key: Key)
      requires Valid() && key in flushInFlight
      modifies this`flushInFlight, this`model, flushInFlight[key].bucket
      ensures Valid() && key in old(model.inFlight) && model == Restore(old(model), key)
      ensures flushInFlight == old(flushInFlight) - {key}
    {
      hide RateLimitSpec.Valid, Moves, HeapMatches, TableMatches, FlightsMatch, TimersMatch;
      FlushIsMade(key);
      var request := flushInFlight[key];
      Reads(request.bucket);
      RestoreMoves(model, key);
      FlightEnded(made, flushInFlight, model.inFlight, key);
      model := Restore(model, key);
      request.bucket.pendingDelta := request.bucket.pendingDelta + request.delta;
      flushInFlight := flushInFlight - {key};
      OneBucketChanged(request.bucket);
    }

    method TakeTimer(key: Key) returns (bucket: RateLimitBucket)
      requires Valid() && key in flushTimers
      modifies this`flushTimers, this`model
      ensures Valid() && model == old(model).(timers := old(model.timers) - {key})
      ensures Made(made, bucket, bucket.id) && bucket.key == key
      ensures key in old(model.timers) && bucket.id == old(model.timers)[key].bucket
    {
      hide NoDuplicates, FlightsMatch, TableMatches;
      bucket := flushTimers[key].bucket;
      flushTimers := flushTimers - {key};
      model := model.(timers := model.timers - {key});
    }

    /** The timer callback; `started` says whether a flush attempt follows it up. */
    method OnTimer(key: Key, now: int) returns (started: bool)
      requires Valid() && key in flushTimers
      modifies this`flushTimers, this`flushInFlight, this`model, made
      ensures Valid() && key in old(model.timers) && model == FireTimer(old(model), key, now)
    {
      hide NoDuplicates, RateLimitSpec.FlushIfCurrent, HeapMatches, FlightsMatch;
      var bucket := TakeTimer(key);
      Reads(bucket);
      SameBucket(made, buckets, model.table, key, bucket);
      if key !in buckets || buckets[key] != bucket || bucket.pendingDelta == 0 {
        return false;
      }
      FlushIfCurrent(key, bucket, now);
      return true;
    }

    /** After that attempt settled. */
    method AfterTimer(key: Key, bucket: RateLimitBucket, now: int)
      requires Valid() && Made(made, bucket, bucket.id) && bucket.key == key
      modifies this`flushTimers, this`model
      ensures Valid() && model == RetryTimer(old(model), bucket.id, now)
    {
      if bucket.pendingDelta > 0 && bucket.resetAt > now && key in buckets && buckets[key] == bucket {
        ScheduleFlush(key, bucket, now);
      }
    }

    /** `drain` up to its first `await`. */
    method BeginDrain()
      requires Valid()
      modifies this`draining, this`flushTimers, this`model
      ensures Valid() && model == StartDraining(old(model))
    {
      model := StartDraining(model);
      draining, flushTimers := true, map[];
    }

    /** Whether some bucket of the table has anything to send. */
    method AnyPending() returns (any: bool)
      requires Valid()
      ensures any <==> Waits(model, model.order)
    {
      hide NoDuplicates, FlightsMatch, TimersMatch;
      for i := 0 to |order|
        invariant !Waits(model, order[..i])
      {
        var bucket := buckets[order[i]];
        assert bucket.Value() == model.heap[bucket.id];
        if bucket.pendingDelta > 0 {
          assert !Sent(model, model.order[i]);
          return true;
        }
      }
      assert order[..|order|] == model.order;
      return false;
    }

    /** One bucket of a pass; whether its flush is waited for. */
    method DrainBucket(key: Key, now: int) returns (flushed: bool)
      requires Valid() && key in buckets
      modifies this`flushInFlight, this`model, made
      ensures Valid() && model == DrainKey(old(model), key, now)
      ensures flushed <==> Flushes(old(model), key, now)
    {
      hide RateLimitSpec.FlushIfCurrent, NoDuplicates, HeapMatches, TableMatches, FlightsMatch, TimersMatch;
      BucketOf(key);
      var bucket := buckets[key];
      flushed := bucket.pendingDelta > 0 && bucket.resetAt > now;
      if bucket.pendingDelta > 0 {
        FlushIfCurrent(key, bucket, now);
      }
    }

    /**
      One pass of `drain`: flushes, or drops, whatever is pending. What it then waits for are the
      flushes of `awaited`.
     */
    method DrainPending(now: int) returns (awaited: set<Key>)
      requires Valid()
      modifies this`flushInFlight, this`model, made
      ensures Valid() && model == DrainPass(old(model), old(model.order), now)
      ensures awaited == Awaited(old(model), old(model.order), now)
    {
      hide DrainKey, Flushes, RateLimitSpec.Valid, HeapMatches, TableMatches, FlightsMatch, TimersMatch;
      awaited := {};
      var i := 0;
      while i < |order|
        invariant 0 <= i <= |order| && Valid()
        invariant DrainPass(model, order[i..], now) == DrainPass(old(model), old(model.order), now)
        invariant awaited + Awaited(model, order[i..], now) == Awaited(old(model), old(model.order), now)
      {
        OrderedKey(i);
        assert order[i..][1..] == order[i + 1..];
        var flushed := DrainBucket(order[i], now);
        if flushed {
          awaited := awaited + {order[i]};
        }
        i := i + 1;
      }
    }

    lemma OrderedKey(i: nat)
      requires Valid() && i < |order|
      ensures order[i] in buckets
    {
      hide NoDuplicates, HeapMatches, FlightsMatch, TimersMatch;
    }

    /** Waits for the flushes of these keys that are in flight, whichever way they end. */
    method SettleAll(keys: set<Key>, answers: Key -> Option<Row>)
      requires Valid()
      modifies this`flushInFlight, this`model, made
      ensures Valid() && model == Settle(old(model), keys, answers)
    {
      hide Settle, HeapMatches, TableMatches, FlightsMatch, TimersMatch, RateLimitSpec.Valid;
      while exists key :: key in flushInFlight && key in keys
        invariant Valid()
        invariant Settle(model, keys, answers) == Settle(old(model), keys, answers)
        decreases flushInFlight.Keys
      {
        FlightsAreMade();
        var key :| key in flushInFlight && key in keys;
        SettleOne(key, keys, answers);
      }
      NoneInFlight();
      SettledAlready(model, keys, answers);
    }

    method SettleOne(key: Key, keys: set<Key>, answers: Key -> Option<Row>)
      requires Valid() && key in flushInFlight && key in keys
      modifies this`flushInFlight, this`model, flushInFlight[key].bucket
      ensures Valid() && Settle(model, keys, answers) == Settle(old(model), keys, answers)
      ensures flushInFlight.Keys == old(flushInFlight.Keys) - {key}
    {
      hide Settle, HeapMatches, TableMatches, FlightsMatch, TimersMatch, NoDuplicates;
      FlushIsMade(key);
      SettleOneFirst(model, key, keys, answers);
      var answer := answers(key);
      if answer.Some? {
        OnRow(key, answer.value);
      } else {
        OnError(key);
      }
    }

    /** What happens while `drain` waits: a request comes in, or a statement ends. */
    method Perform(action: Action)
      requires Valid()
      modifies this, made
      ensures Valid() && model == Act(old(model), action)
      ensures forall i :: 0 <= i < |made| ==> made[i] in old(made) || fresh(made[i])
    {
      hide RateLimitSpec.Valid, RateLimitSpec.BeginHit, HeapMatches, TableMatches, FlightsMatch, TimersMatch;
      FlightsAreMade();
      SameFlights(made, flushInFlight, model.inFlight, action.key);
      match action
      case Requested(key, fixed, now) =>
        var _ := BeginHit(key, fixed, now);
      case Answered(key, row) =>
        if key in flushInFlight {
          OnRow(key, row);
        }
      case Failed(key) =>
        if key in flushInFlight {
          OnError(key);
        }
    }

    /** A wait of `drain`: whatever happens meanwhile, it goes on once the flushes of these keys have ended. */
    method AwaitFlushes(awaited: set<Key>, turn: Turn)
      requires Valid()
      modifies this, made
      ensures Valid() && model == Wait(old(model), awaited, turn)
      ensures forall i :: 0 <= i < |made| ==> made[i] in old(made) || fresh(made[i])
    {
      hide RateLimitSpec.Valid, Act, HeapMatches, TableMatches, FlightsMatch, TimersMatch, Settle;
      var owed := awaited;
      var i := 0;
      while i < |turn.actions|
        invariant 0 <= i <= |turn.actions| && Valid()
        invariant forall i :: 0 <= i < |made| ==> made[i] in old(made) || fresh(made[i])
        invariant Acts(model, turn.actions[i..]) == Acts(old(model), turn.actions)
        invariant Owed(owed, turn.actions[i..]) == Owed(awaited, turn.actions)
      {
        var action := turn.actions[i];
        assert turn.actions[i..][1..] == turn.actions[i + 1..];
        Perform(action);
        if !action.Requested? {
          owed := owed - {action.key};
        }
        i := i + 1;
      }
      SettleAll(owed, turn.answers);
    }

    lemma FlightsAreMade()
      requires Valid()
      ensures forall k :: k in flushInFlight ==> flushInFlight[k].bucket in made
    {
      hide NoDuplicates, HeapMatches, TableMatches, TimersMatch;
    }

    lemma NoneInFlight()
      requires FlightsMatch(made, flushInFlight, model.inFlight) && TimersMatch(made, flushTimers, model.timers)
      ensures flushInFlight.Keys == model.inFlight.Keys
      ensures flushTimers == map[] <==> model.timers == map[]
    {
      assert flushTimers == map[] <==> flushTimers.Keys == {};
    }

    lemma NothingPending(key: Key)
      requires Valid() && Live(model, key) == 0 && key in buckets
      ensures buckets[key].pendingDelta == 0
    {
      hide NoDuplicates, FlightsMatch, TimersMatch;
      BucketOf(key);
    }

    lemma NotInFlight(key: Key)
      requires Valid() && key !in model.inFlight
      ensures key !in flushInFlight
    {
      hide NoDuplicates, TableMatches, TimersMatch;
    }

    /** The loop of `drain`. */
    method DrainPasses(nows: nat -> int, turns: nat -> Turn)
      requires Valid()
      modifies this, made
      ensures Valid() && model == DrainFrom(old(model), 0, nows, turns)
    {
      hide RateLimitSpec.Valid, HeapMatches, TableMatches, FlightsMatch, TimersMatch, DrainPass, Awaited, Wait, Waits;
      for pass := 0 to 3
        invariant Valid()
        invariant forall i :: 0 <= i < |made| ==> made[i] in old(made) || fresh(made[i])
        invariant DrainFrom(model, pass, nows, turns) == DrainFrom(old(model), 0, nows, turns)
      {
        NoneInFlight();
        AwaitFlushes(flushInFlight.Keys, turns(2 * pass));
        var any := AnyPending();
        if !any {
          return;
        }
        var awaited := DrainPending(nows(pass));
        AwaitFlushes(awaited, turns(2 * pass + 1));
      }
    }

    lemma Drained(start: Counter, nows: nat -> int, turns: nat -> Turn)
      requires Valid() && RateLimitSpec.Valid(start) && start.draining && start.timers == map[]
      requires model == DrainFrom(start, 0, nows, turns)
      ensures flushTimers == map[] && draining
      ensures forall key :: NoRequests(turns, 0, key) ==> key !in flushInFlight
      ensures forall key :: key in buckets && Delivered(turns, 0, key) ==> buckets[key].pendingDelta == 0
    {
      hide RateLimitSpec.Valid, HeapMatches, TableMatches, FlightsMatch, TimersMatch;
      hide DrainFrom, Live, NoRequests, Delivered;
      ShutdownArmsNothing(start, 0, nows, turns);
      NoneInFlight();
      forall key ensures NoRequests(turns, 0, key) ==> key !in flushInFlight
                 ensures key in buckets && Delivered(turns, 0, key) ==> buckets[key].pendingDelta == 0 {
        ShutdownSendsAll(start, 0, nows, turns, key);
        if key !in model.inFlight {
          NotInFlight(key);
        }
        if key in buckets && Live(model, key) == 0 {
          NothingPending(key);
        }
      }
    }

    /**
      `drain`, whatever comes in while it waits. Afterwards no timer is armed. A
      key that no request came in for has nothing in flight, and once its own flush
      succeeded in a pass after its last request, nothing pending.
     */
    method Drain(nows: nat -> int, turns: nat -> Turn)
      requires Valid()
      modifies this, made
      ensures Valid() && model == DrainFrom(StartDraining(old(model)), 0, nows, turns)
      ensures flushTimers == map[] && draining
      ensures forall key :: NoRequests(turns, 0, key) ==> key !in flushInFlight
      ensures forall key :: key in buckets && Delivered(turns, 0, key) ==> buckets[key].pendingDelta == 0
    {
      hide HeapMatches, TableMatches, FlightsMatch, TimersMatch, NoDuplicates, DrainFrom;
      BeginDrain();
      ghost var start := model;
      DrainPasses(nows, turns);
      Drained(start, nows, turns);
    }
  }
}
