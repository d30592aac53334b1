/** Whom the rate-limit counter rejects, and how its windows begin and end. */
module RateLimitQuota {
  import opened Common
  import opened RateLimitSpec
  import opened RateLimitProofs
  import opened RateLimitDrain

  // ---------------------------------------------------------------- who is rejected

  /**
    Main result 1: for a key that only this instance counts, within one window
    and with no answer lost, the decision is exact: a request is rejected if and
    only if more of them than the limit were made that are not in flight.
   */
  lemma RejectedExactlyWhen(w: World, steps: seq<Step>, key: Key, limit: nat)
    requires Starts(w) && IsRun(w, steps)
    requires key in Run(w, steps).counter.table && key !in Run(w, steps).disturbed
    ensures var w1 := Run(w, steps);
            var c := w1.counter;
            && c.table[key] < |c.heap|
            && (Exceeded(Counted(c, c.table[key]), limit) <==> w1.hits[key] - InFlightOf(c, key) > limit)
  {
    UndisturbedCountIsExact(w, steps, key);
  }

  /** No statement of the key is acknowledged. */
  predicate Unanswered(steps: seq<Step>, key: Key) {
    forall i :: 0 <= i < |steps| ==> !(steps[i].Acknowledged? && steps[i].key == key)
  }

  /** What a step does to the counter itself. */
  function CounterAfter(w: World, step: Step): Counter
    requires Valid(w.counter) && Enabled(w, step)
  {
    var c := w.counter;
    match step
    case BeginsHit(key, fixed, now) => BeginHit(c, key, fixed, now)
    case EndsHit(b, scheduled, now) => EndHit(c, b, scheduled, now)
    case Acknowledged(key) => Acknowledge(c, key, w.replies[key])
    case Fails(key) => Restore(c, key)
    case TimerFires(key, now) => FireTimer(c, key, now)
    case TimerRetries(b, now) => RetryTimer(c, b, now)
    case DrainStarts => StartDraining(c)
    case Drains(key, now) => DrainKey(c, key, now)
    case _ => c
  }

  lemma NextCounter(w: World, step: Step)
    requires Valid(w.counter) && Enabled(w, step)
    ensures Next(w, step).counter == CounterAfter(w, step)
  {
    hide Displaced, BeginHit, EndHit, RetryTimer, DroppedByFlush, DrainKey, Restore, Acknowledge, FireTimer, Upsert;
  }

  /** The bucket is still there, with what it knows from the database. */
  predicate KeepsSynced(c: Counter, c1: Counter, b: nat)
    requires b < |c.heap|
  {
    b < |c1.heap| && c1.heap[b].key == c.heap[b].key && c1.heap[b].synced == c.heap[b].synced
  }

  /** Only an acknowledged statement of its key changes what a bucket knows from the database. */
  lemma SyncedStays(w: World, step: Step, b: nat)
    requires Inv(w) && Enabled(w, step) && b < |w.counter.heap|
    requires !(step.Acknowledged? && step.key == w.counter.heap[b].key)
    ensures KeepsSynced(w.counter, Next(w, step).counter, b)
  {
    hide BeginHit, EndHit, RetryTimer, DrainKey, Restore, Acknowledge, FireTimer, Next;
    InvIsValid(w);
    NextCounter(w, step);
    hide Inv, Valid;
    var c := w.counter;
    match step {
      case BeginsHit(key, fixed, now) => HitKeepsSynced(c, key, fixed, now, b);
      case EndsHit(held, scheduled, now) => ContinuationKeepsSynced(c, held, scheduled, now, b);
      case TimerRetries(held, now) => ContinuationKeepsSynced(c, held, false, now, b);
      case TimerFires(key, now) => FlushKeepsSynced(c, key, now, b);
      case Drains(key, now) => FlushKeepsSynced(c, key, now, b);
      case Acknowledged(key) => EndKeepsSynced(c, key, w.replies[key], b);
      case Fails(key) => EndKeepsSynced(c, key, Row(0, 0), b);
      case _ =>
    }
  }

  lemma ContinuationKeepsSynced(c: Counter, held: nat, scheduled: bool, now: int, b: nat)
    requires held < |c.heap| && b < |c.heap|
    ensures KeepsSynced(c, EndHit(c, held, scheduled, now), b) && KeepsSynced(c, RetryTimer(c, held, now), b)
  {
  }

  lemma HitKeepsSynced(c: Counter, key: Key, fixed: Option<int>, now: int, b: nat)
    requires Valid(c) && b < |c.heap|
    ensures KeepsSynced(c, BeginHit(c, key, fixed, now), b)
  {
    hide NoDuplicates, CurrentBucket, Displaced;
    CurrentBucketKeeps(c, key, fixed, now);
  }

  lemma FlushKeepsSynced(c: Counter, key: Key, now: int, b: nat)
    requires Valid(c) && b < |c.heap|
    ensures KeepsSynced(c, DrainKey(c, key, now), b)
    ensures key in c.timers ==> KeepsSynced(c, FireTimer(c, key, now), b)
  {
    hide FlushIfCurrent, Valid, PendingOf;
    TableOwned(c);
    if key in c.table {
      FlushIfCurrentMoves(c, key, c.table[key], now);
      if key in c.timers {
        WithoutTimer(c, key);
        FlushIfCurrentMoves(c.(timers := c.timers - {key}), key, c.table[key], now);
      }
    }
  }

  lemma WithoutTimer(c: Counter, key: Key)
    requires Valid(c)
    ensures Valid(c.(timers := c.timers - {key}))
  {
    hide NoDuplicates;
  }

  lemma EndKeepsSynced(c: Counter, key: Key, row: Row, b: nat)
    requires Valid(c) && b < |c.heap| && key in c.inFlight
    ensures c.heap[b].key != key ==> Acknowledge(c, key, row).heap[b] == c.heap[b]
    ensures Restore(c, key).heap[b].key == c.heap[b].key && Restore(c, key).heap[b].synced == c.heap[b].synced
    ensures |Acknowledge(c, key, row).heap| == |c.heap| == |Restore(c, key).heap|
  {
    hide NoDuplicates;
    assert Owns(c, key, c.inFlight[key].bucket);
  }

  lemma {:induction false} OverLimitStays(w: World, steps: seq<Step>, b: nat, limit: nat)
    requires Inv(w) && IsRun(w, steps) && b < |w.counter.heap| && w.counter.heap[b].synced > limit
    requires Unanswered(steps, w.counter.heap[b].key)
    ensures b < |Run(w, steps).counter.heap| && Exceeded(Counted(Run(w, steps).counter, b), limit)
    decreases |steps|
  {
    hide Inv, Next;
    if steps != [] {
      StepKeepsInv(w, steps[0]);
      SyncedStays(w, steps[0], b);
      OverLimitStays(Next(w, steps[0]), steps[1..], b, limit);
    }
  }

  /**
    Main result 2: once the database has answered with more than the limit,
    whoever counted it, every request on that bucket is rejected until the
    database answers again.
   */
  lemma RejectedOnceOverLimit(w: World, key: Key, steps: seq<Step>, limit: nat)
    requires Inv(w) && Enabled(w, Acknowledged(key)) && w.replies[key].count > limit
    requires IsRun(Next(w, Acknowledged(key)), steps) && Unanswered(steps, key)
    ensures var c := Run(Next(w, Acknowledged(key)), steps).counter;
            var b := w.counter.inFlight[key].bucket;
            b < |c.heap| && Exceeded(Counted(c, b), limit)
  {
    hide Inv, IsRun, Run;
    InvIsValid(w);
    StepKeepsInv(w, Acknowledged(key));
    var b := w.counter.inFlight[key].bucket;
    assert Owns(w.counter, key, b);
    assert Next(w, Acknowledged(key)).counter.heap[b] ==
           w.counter.heap[b].(synced := w.replies[key].count, resetAt := w.replies[key].resetAt);
    OverLimitStays(Next(w, Acknowledged(key)), steps, b, limit);
  }

  // ---------------------------------------------------------------- one request

  /**
    What one request does to its key's bucket: in an open window it adds one to
    what waits there, otherwise it starts a new window with one; and everything
    that waits leaves for the database when the last flush began five seconds ago
    or more and none is in flight.
   */
  lemma HitCountsOne(c: Counter, key: Key, fixed: Option<int>, now: int)
    requires Valid(c)
    ensures var c1 := BeginHit(c, key, fixed, now);
            var open := key in c.table && c.heap[c.table[key]].resetAt > now;
            var waiting := 1 + (if open then c.heap[c.table[key]].pending else 0);
            var flushedAt := if open then c.heap[c.table[key]].lastFlushAt else 0;
            var due := now - flushedAt >= 5_000 && key !in c.inFlight;
            && key in c1.table && c1.table[key] < |c1.heap|
            && (open ==> c1.table[key] == c.table[key])
            && c1.heap[c1.table[key]]
                 == Bucket(key,
                           if due then 0 else waiting,
                           if open then c.heap[c.table[key]].synced else 0,
                           if open then c.heap[c.table[key]].resetAt
                           else if fixed.Some? then fixed.value else now + 60_000,
                           if due then now else flushedAt,
                           if open then c.heap[c.table[key]].fixed else fixed)
            && c1.inFlight == if due then c.inFlight[key := Flush(c1.table[key], waiting, fixed)] else c.inFlight
  {
    hide NoDuplicates, CurrentBucket, Displaced;
    CurrentBucketKeeps(c, key, fixed, now);
    CurrentBucketIs(c, key, fixed, now);
  }

  lemma CurrentBucketIs(c: Counter, key: Key, fixed: Option<int>, now: int)
    requires Valid(c)
    ensures var c1 := CurrentBucket(c, key, fixed, now);
            if key in c.table && c.heap[c.table[key]].resetAt > now then c1 == c
            else
              && c1.table[key] == |c.heap|
              && c1.heap == c.heap
                   + [Bucket(key, 0, 0, if fixed.Some? then fixed.value else now + 60_000, 0, fixed)]
  {
    hide NoDuplicates, RecordBucket, Remove;
    Removed(c, key);
    Recorded(if key in c.table then Remove(c, key) else c, NewBucket(key, fixed, now));
  }

  // ---------------------------------------------------------------- idle increments

  /**
    What a request of a scheduled counter leaves waiting gets a timer unless
    there is one or the counter is draining, due five seconds after the last flush
    began and never within the next second.
   */
  lemma RequestArmsTimer(c: Counter, b: nat, now: int)
    requires Valid(c) && b < |c.heap|
    ensures var c1 := EndHit(c, b, true, now);
            var key := c.heap[b].key;
            && c1.timers.Keys
                 == c.timers.Keys + (if c.heap[b].pending > 0 && !c.draining then {key} else {})
            && (forall k :: k in c.timers ==> c1.timers[k] == c.timers[k])
            && (key in c1.timers && key !in c.timers ==>
                  && c1.timers[key].bucket == b
                  && c1.timers[key].due == Max(now + 1_000, c.heap[b].lastFlushAt + 5_000))
    ensures EndHit(c, b, false, now) == c
  {
  }

  /** An armed timer stays until it fires or the shutdown begins. */
  lemma ArmedTimerStays(w: World, step: Step, key: Key)
    requires Inv(w) && Enabled(w, step) && key in w.counter.timers
    requires !(step.TimerFires? && step.key == key) && !step.DrainStarts?
    ensures key in Next(w, step).counter.timers && Next(w, step).counter.timers[key] == w.counter.timers[key]
  {
    hide BeginHit, EndHit, RetryTimer, DrainKey, Restore, Acknowledge, FireTimer, Next;
    InvIsValid(w);
    NextCounter(w, step);
    hide Inv, Valid;
    match step {
      case BeginsHit(k, fixed, now) => HitArmsNothing(w.counter, k, fixed, now);
      case EndsHit(b, scheduled, now) => ContinuationKeepsTimers(w.counter, b, scheduled, now, key);
      case TimerRetries(b, now) => ContinuationKeepsTimers(w.counter, b, false, now, key);
      case Drains(k, now) => DrainKeySends(w.counter, k, now);
      case TimerFires(k, now) => OtherTimersStay(w.counter, k, now);
      case Acknowledged(k) => SettlingArmsNothing(w.counter, k, w.replies[k]);
      case Fails(k) => SettlingArmsNothing(w.counter, k, Row(0, 0));
      case _ =>
    }
  }

  lemma ContinuationKeepsTimers(c: Counter, b: nat, scheduled: bool, now: int, key: Key)
    requires b < |c.heap| && key in c.timers
    ensures var c1 := EndHit(c, b, scheduled, now); key in c1.timers && c1.timers[key] == c.timers[key]
    ensures var c1 := RetryTimer(c, b, now); key in c1.timers && c1.timers[key] == c.timers[key]
  {
  }

  lemma OtherTimersStay(c: Counter, key: Key, now: int)
    requires Valid(c) && key in c.timers
    ensures FireTimer(c, key, now).timers == c.timers - {key}
  {
    hide NoDuplicates;
  }

  /** A timer that fires empties its bucket, if that is still the key's and no flush is in flight. */
  lemma FiredTimerSends(c: Counter, key: Key, now: int)
    requires Valid(c) && key in c.timers
    ensures var c1 := FireTimer(c, key, now);
            && key !in c1.timers
            && (key in c.table && c.table[key] == c.timers[key].bucket && key !in c.inFlight ==>
                  var bucket := c.heap[c.table[key]];
                  && Sent(c1, key)
                  && (key in c1.inFlight <==> bucket.pending > 0 && bucket.resetAt > now)
                  && (key in c1.inFlight ==> c1.inFlight[key] == Flush(c.table[key], bucket.pending, bucket.fixed)))
  {
    hide NoDuplicates;
  }

  /** A flush that failed after its timer is tried again while its window is open and its bucket the key's. */
  lemma FailedFlushIsRetried(c: Counter, b: nat, now: int)
    requires Valid(c) && b < |c.heap| && !c.draining && c.heap[b].key !in c.timers
    ensures var key := c.heap[b].key;
            key in RetryTimer(c, b, now).timers
            <==> c.heap[b].pending > 0 && c.heap[b].resetAt > now && key in c.table && c.table[key] == b
    ensures RetryTimer(c, b, now).(timers := c.timers) == c
  {
  }

  // ---------------------------------------------------------------- windows in the database

  /** A statement as the database runs it. */
  datatype Statement = Statement(delta: nat, fixed: Option<int>, now: int)

  /** The row after these statements on one key. */
  function RowAfter(statements: seq<Statement>, key: Key): map<Key, Row> {
    if statements == [] then map[]
    else
      var db, last := RowAfter(statements[..|statements| - 1], key), statements[|statements| - 1];
      db[key := Upsert(db, key, last.delta, last.fixed, last.now)]
  }

  function EndOf(s: Statement): int {
    if s.fixed.Some? then s.fixed.value else s.now + 60_000
  }

  function Total(statements: seq<Statement>): nat {
    if statements == [] then 0
    else Total(statements[..|statements| - 1]) + statements[|statements| - 1].delta
  }

  /** Each statement but the first falls into the window that the first one opened. */
  predicate OneWindow(window: seq<Statement>) {
    window != [] && forall i :: 0 < i < |window| ==> window[i].now < EndOf(window[0])
  }

  /**
    Main result 3: a row counts the statements of one window and no others. It was
    opened by a statement that found no earlier window open, ends a minute after
    that one ran or where that one pinned its end, and holds the sum since then.
   */
  lemma {:induction false} RowCountsItsWindow(statements: seq<Statement>, key: Key) returns (start: nat)
    requires statements != []
    ensures start < |statements| && OneWindow(statements[start..])
    ensures key in RowAfter(statements, key)
    ensures RowAfter(statements, key)[key] == Row(Total(statements[start..]), EndOf(statements[start]))
    ensures start > 0 ==>
              && key in RowAfter(statements[..start], key)
              && RowAfter(statements[..start], key)[key].resetAt <= statements[start].now
    decreases |statements|
  {
    var front, last := statements[..|statements| - 1], statements[|statements| - 1];
    assert statements == front + [last];
    if front == [] {
      start := 0;
      LoneStatement(last);
      assert statements[0..] == [last];
    } else {
      start := RowCountsItsWindow(front, key);
      if RowAfter(front, key)[key].resetAt > last.now {
        OneMoreStatement(front[start..], last);
        assert statements[start..] == front[start..] + [last] && statements[..start] == front[..start];
      } else {
        start := |front|;
        LoneStatement(last);
        assert statements[start..] == [last] && statements[..start] == front;
      }
    }
  }

  lemma LoneStatement(s: Statement)
    ensures Total([s]) == s.delta && OneWindow([s])
  {
    assert Total([s][..0]) == 0;
  }

  lemma OneMoreStatement(window: seq<Statement>, last: Statement)
    requires OneWindow(window) && last.now < EndOf(window[0])
    ensures OneWindow(window + [last]) && Total(window + [last]) == Total(window) + last.delta
    ensures (window + [last])[0] == window[0]
  {
    assert (window + [last])[..|window|] == window;
  }
}
