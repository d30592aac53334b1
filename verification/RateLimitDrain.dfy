/** Shutdown of the rate-limit counter: what a drain pass sends, and what three of them leave behind. */
module RateLimitDrain {
  import opened Common
  import opened RateLimitSpec
  import opened RateLimitProofs

  // ---------------------------------------------------------------- one pass

  /** A drain pass over these keys, in table order. */
  ghost function DrainPass(c: Counter, keys: seq<Key>, now: int): (r: Counter)
    requires Valid(c)
    ensures Valid(r)
    decreases |keys|
  {
    if keys == [] then c
    else
      assert Valid(DrainKey(c, keys[0], now)) by {
        DrainKeySends(c, keys[0], now);
      }
      DrainPass(DrainKey(c, keys[0], now), keys[1..], now)
  }

  /** Nothing of the key waits in its live bucket. */
  predicate Sent(c: Counter, key: Key) {
    Live(c, key) == 0
  }

  /** A drain pass sends the key's live bucket, rather than drop what waits in it or find nothing. */
  predicate Flushes(c: Counter, key: Key, now: int) {
    && Live(c, key) > 0
    && key in c.table && c.table[key] < |c.heap| && c.heap[c.table[key]].resetAt > now
  }

  lemma DrainKeySends(c: Counter, key: Key, now: int)
    requires Valid(c)
    ensures var c1 := DrainKey(c, key, now);
            && Valid(c1) && c1.table == c.table && c1.order == c.order
            && c1.timers == c.timers && c1.draining == c.draining
            && (key !in c.inFlight ==> Sent(c1, key))
            && (forall k :: Sent(c, k) ==> Sent(c1, k))
            && (forall k :: k != key ==> (k in c1.inFlight <==> k in c.inFlight))
            && (key in c.inFlight ==> key in c1.inFlight)
            && (key in c1.inFlight && key !in c.inFlight ==> Flushes(c, key, now))
  {
    if key in c.table {
      FlushIfCurrentMoves(c, key, c.table[key], now);
      FlushLeavesRest(c, key, now);
    }
  }

  lemma FlushLeavesRest(c: Counter, key: Key, now: int)
    requires Valid(c) && key in c.table
    ensures var c1 := FlushIfCurrent(c, key, c.table[key], now);
            && c1.table == c.table && c1.order == c.order && c1.timers == c.timers && c1.draining == c.draining
            && (key !in c.inFlight ==> Sent(c1, key))
            && (forall k :: Sent(c, k) ==> Sent(c1, k))
  {
    hide NoDuplicates;
    FlushEffects(c, key, c.table[key], now);
    var c1 := FlushIfCurrent(c, key, c.table[key], now);
    forall k | Sent(c, k) ensures Sent(c1, k) {
      assert k in c.table && k != key ==> c.table[k] != c.table[key];
    }
  }

  /**
    Main result 1: a pass empties every live bucket whose key has no flush in
    flight, and touches nothing else of what was already sent.
   */
  lemma {:induction false} DrainPassSends(c: Counter, keys: seq<Key>, now: int)
    requires Valid(c) && NoDuplicates(keys)
    ensures var c1 := DrainPass(c, keys, now);
            && c1.table == c.table && c1.order == c.order && c1.timers == c.timers && c1.draining == c.draining
            && (forall k :: Sent(c, k) || (k in keys && k !in c.inFlight) ==> Sent(c1, k))
            && (forall k :: k in c.inFlight ==> k in c1.inFlight)
    decreases |keys|
  {
    hide Valid, DrainKey, Sent;
    if keys != [] {
      DrainKeySends(c, keys[0], now);
      assert keys == [keys[0]] + keys[1..];
      DrainPassSends(DrainKey(c, keys[0], now), keys[1..], now);
    }
  }

  lemma TableSent(c: Counter, key: Key, now: int)
    requires Valid(c) && key !in c.inFlight
    ensures Sent(DrainPass(c, c.order, now), key)
  {
    DrainPassSends(c, c.order, now);
    assert key !in c.order ==> Sent(c, key);
  }

  // ---------------------------------------------------------------- whatever else goes on meanwhile

  /** A pass as steps of the world. */
  function PassSteps(keys: seq<Key>, now: int): seq<Step> {
    seq(|keys|, i requires 0 <= i < |keys| => Drains(keys[i], now))
  }

  lemma {:induction false} PassIsDrains(w: World, keys: seq<Key>, now: int)
    requires Inv(w)
    ensures IsRun(w, PassSteps(keys, now))
    ensures Valid(w.counter) && Run(w, PassSteps(keys, now)).counter == DrainPass(w.counter, keys, now)
    decreases |keys|
  {
    hide Inv, FlushNow;
    InvIsValid(w);
    var steps := PassSteps(keys, now);
    if keys != [] {
      StepKeepsInv(w, Drains(keys[0], now));
      assert steps[0] == Drains(keys[0], now) && steps[1..] == PassSteps(keys[1..], now);
      assert Next(w, steps[0]).counter == DrainKey(w.counter, keys[0], now) by {
        FlushNowCounter(w, keys[0], now, DrainKey(w.counter, keys[0], now));
      }
      PassIsDrains(Next(w, steps[0]), keys[1..], now);
    }
  }

  lemma FlushNowCounter(w: World, key: Key, now: int, next: Counter)
    requires Valid(w.counter)
    ensures FlushNow(w, key, now, next).counter == next
  {
  }

  /** Neither a new request nor a failed flush of the key. */
  predicate Quiet(step: Step, key: Key) {
    !((step.BeginsHit? || step.Fails?) && step.key == key)
  }

  lemma QuietKeepsSent(w: World, step: Step, key: Key)
    requires Inv(w) && Enabled(w, step) && Quiet(step, key) && Sent(w.counter, key)
    ensures Sent(Next(w, step).counter, key)
  {
    hide Displaced, BeginHit, Upsert, DroppedByFlush, Restore, FireTimer, DrainKey, Acknowledge;
    InvIsValid(w);
    hide Inv, NoDuplicates;
    var c := w.counter;
    if step.BeginsHit? {
      HitKeepsSent(c, step.key, step.fixed, step.now, key);
    } else if step.TimerFires? {
      TimerKeepsSent(c, step.key, step.now, key);
    } else if step.Drains? {
      DrainKeySends(c, step.key, step.now);
    } else if step.Acknowledged? {
      AnswerKeepsSent(c, step.key, w.replies[step.key], key);
    } else if step.Fails? {
      FailureKeepsSent(c, step.key, key);
    }
  }

  /** A request counts in the bucket of its own key, and may push out that of another. */
  lemma HitKeepsSent(c: Counter, hit: Key, fixed: Option<int>, now: int, key: Key)
    requires Valid(c) && hit != key
    ensures Sent(c, key) ==> Sent(BeginHit(c, hit, fixed, now), key)
    ensures key in BeginHit(c, hit, fixed, now).inFlight <==> key in c.inFlight
  {
    hide Valid, CurrentBucket, FlushBucket, Live;
    CurrentBucketKeeps(c, hit, fixed, now);
    MadeBucketSent(c, hit, fixed, now, key);
    CountedSent(CurrentBucket(c, hit, fixed, now), hit, fixed, now, key);
  }

  lemma MadeBucketSent(c: Counter, hit: Key, fixed: Option<int>, now: int, key: Key)
    requires Valid(c) && hit != key
    ensures Sent(c, key) ==> Sent(CurrentBucket(c, hit, fixed, now), key)
  {
    hide NoDuplicates, Displaced, CurrentBucket;
    CurrentBucketKeeps(c, hit, fixed, now);
  }

  lemma CountedSent(c: Counter, hit: Key, fixed: Option<int>, now: int, key: Key)
    requires Valid(c) && hit in c.table && hit != key
    ensures var b := c.table[hit];
            var c1 := FlushBucket(Count(c, b), hit, b, fixed, now);
            && (Sent(c, key) <==> Sent(Count(c, b), key)) && (Sent(c, key) <==> Sent(c1, key))
            && (key in c1.inFlight <==> key in c.inFlight)
  {
    hide NoDuplicates;
    assert key in c.table ==> c.table[key] != c.table[hit];
  }

  lemma TimerKeepsSent(c: Counter, timer: Key, now: int, key: Key)
    requires Valid(c) && timer in c.timers && Sent(c, key)
    ensures Sent(FireTimer(c, timer, now), key)
  {
    hide NoDuplicates, FlushIfCurrent;
    if timer in c.table {
      assert c.(timers := c.timers - {timer}).heap == c.heap;
      FlushLeavesRest(c.(timers := c.timers - {timer}), timer, now);
    }
  }

  lemma AnswerKeepsSent(c: Counter, answered: Key, row: Row, key: Key)
    requires Valid(c) && answered in c.inFlight && Sent(c, key)
    ensures Sent(Acknowledge(c, answered, row), key)
  {
    hide NoDuplicates;
  }

  lemma FailureKeepsSent(c: Counter, failed: Key, key: Key)
    requires Valid(c) && failed in c.inFlight && failed != key && Sent(c, key)
    ensures Sent(Restore(c, failed), key)
  {
    hide NoDuplicates;
  }

  lemma {:induction false} QuietRunKeepsSent(w: World, steps: seq<Step>, key: Key)
    requires Inv(w) && IsRun(w, steps) && Sent(w.counter, key)
    requires forall i :: 0 <= i < |steps| ==> Quiet(steps[i], key)
    ensures Inv(Run(w, steps)) && Sent(Run(w, steps).counter, key)
    decreases |steps|
  {
    hide Inv, Next, Sent, Quiet;
    if steps != [] {
      StepKeepsInv(w, steps[0]);
      QuietKeepsSent(w, steps[0], key);
      QuietRunKeepsSent(Next(w, steps[0]), steps[1..], key);
    }
  }

  /**
    Main result 2: a pass that starts with no flush of a key in flight, followed
    by any steps that bring neither a request nor a failed flush of that key,
    loses none of its requests. Once its flush has been answered each of them is
    committed or was dropped with its window or bucket.
   */
  lemma DrainDelivers(w: World, now: int, steps: seq<Step>, key: Key)
    requires Inv(w) && key !in w.counter.inFlight
    requires IsRun(w, PassSteps(w.counter.order, now))
    requires IsRun(Run(w, PassSteps(w.counter.order, now)), steps)
    requires forall i :: 0 <= i < |steps| ==> Quiet(steps[i], key)
    ensures var end := Run(Run(w, PassSteps(w.counter.order, now)), steps);
            && Live(end.counter, key) == 0
            && (key !in end.counter.inFlight ==>
                  end.hits[key] + end.duplicated[key]
                    == end.committed[key] + (Retired(end.counter, key) + end.expired[key]))
  {
    hide PendingOf, DrainPass, Retired;
    var pass := PassSteps(w.counter.order, now);
    PassIsDrains(w, w.counter.order, now);
    RunKeepsInv(w, pass);
    TableSent(w.counter, key, now);
    QuietRunKeepsSent(Run(w, pass), steps, key);
    var end := Run(Run(w, pass), steps);
    assert Sent(end.counter, key);
    AccountOfKey(end, key);
  }

  /** Once draining, no timer is ever armed again. */
  lemma {:induction false} DrainingArmsNothing(w: World, steps: seq<Step>)
    requires Inv(w) && IsRun(w, steps) && w.counter.draining && w.counter.timers == map[]
    ensures Run(w, steps).counter.draining && Run(w, steps).counter.timers == map[]
    decreases |steps|
  {
    hide Inv, Next;
    if steps != [] {
      StepKeepsInv(w, steps[0]);
      DrainingStep(w, steps[0]);
      DrainingArmsNothing(Next(w, steps[0]), steps[1..]);
    }
  }

  /** From its start on a shutdown leaves no timer armed, and none is armed after it. */
  lemma ShutdownCancelsTimers(w: World, steps: seq<Step>)
    requires Inv(w) && IsRun(Next(w, DrainStarts), steps)
    ensures var c := Run(Next(w, DrainStarts), steps).counter; c.draining && c.timers == map[]
  {
    hide Inv, Run, IsRun;
    InvIsValid(w);
    StepKeepsInv(w, DrainStarts);
    DrainingArmsNothing(Next(w, DrainStarts), steps);
  }

  lemma DrainingStep(w: World, step: Step)
    requires Inv(w) && Enabled(w, step) && w.counter.draining && w.counter.timers == map[]
    ensures Next(w, step).counter.draining && Next(w, step).counter.timers == map[]
  {
    hide Displaced, BeginHit, Upsert, DroppedByFlush, DrainKey, Restore, Acknowledge;
    InvIsValid(w);
    hide Inv, NoDuplicates;
    if step.Drains? {
      DrainKeySends(w.counter, step.key, step.now);
    } else if step.Fails? || step.Acknowledged? {
      SettlingArmsNothing(w.counter, step.key, if step.Acknowledged? then w.replies[step.key] else Row(0, 0));
    } else if step.BeginsHit? {
      HitArmsNothing(w.counter, step.key, step.fixed, step.now);
    }
  }

  lemma SettlingArmsNothing(c: Counter, key: Key, row: Row)
    requires Valid(c) && key in c.inFlight
    ensures Restore(c, key).draining == c.draining && Restore(c, key).timers == c.timers
    ensures Acknowledge(c, key, row).draining == c.draining && Acknowledge(c, key, row).timers == c.timers
  {
    hide NoDuplicates;
  }

  lemma HitArmsNothing(c: Counter, key: Key, fixed: Option<int>, now: int)
    requires Valid(c)
    ensures BeginHit(c, key, fixed, now).draining == c.draining && BeginHit(c, key, fixed, now).timers == c.timers
  {
    hide NoDuplicates, CurrentBucket;
    BucketArmsNothing(c, key, fixed, now);
  }

  lemma BucketArmsNothing(c: Counter, key: Key, fixed: Option<int>, now: int)
    requires Valid(c)
    ensures CurrentBucket(c, key, fixed, now).draining == c.draining
            && CurrentBucket(c, key, fixed, now).timers == c.timers
  {
    hide NoDuplicates, RecordBucket, Remove;
    Removed(c, key);
    Recorded(if key in c.table then Remove(c, key) else c, NewBucket(key, fixed, now));
  }

  // ---------------------------------------------------------------- what happens while a shutdown waits

  /**
    A request that still comes in, or the end of a statement in flight. What a
    request or a timer does after its own wait only arms timers, and so does
    nothing here.
   */
  datatype Action =
    | Requested(key: Key, fixed: Option<int>, now: int)
    | Answered(key: Key, row: Row)
    | Failed(key: Key)

  /**
    Everything that happens during one wait, in order, and how the flushes end that are waited for
    and still in flight then.
   */
  datatype Turn = Turn(actions: seq<Action>, answers: Key -> Option<Row>)

  function Act(c: Counter, action: Action): Counter
    requires Valid(c)
  {
    match action
    case Requested(key, fixed, now) => BeginHit(c, key, fixed, now)
    case Answered(key, row) => if key in c.inFlight then Acknowledge(c, key, row) else c
    case Failed(key) => if key in c.inFlight then Restore(c, key) else c
  }

  lemma ActValid(c: Counter, action: Action)
    requires Valid(c)
    ensures Valid(Act(c, action))
    ensures Act(c, action).timers == c.timers && Act(c, action).draining == c.draining
  {
    hide NoDuplicates, BeginHit;
    if action.Requested? {
      HitArmsNothing(c, action.key, action.fixed, action.now);
      HitValid(c, action.key, action.fixed, action.now);
    }
  }

  lemma HitValid(c: Counter, key: Key, fixed: Option<int>, now: int)
    requires Valid(c)
    ensures Valid(BeginHit(c, key, fixed, now))
  {
    hide Valid, Moves, CurrentBucket, FlushBucket;
    CurrentBucketKeeps(c, key, fixed, now);
    var c1 := CurrentBucket(c, key, fixed, now);
    var b := c1.table[key];
    CountMoves(c1, b);
    FlushMoves(Count(c1, b), key, b, fixed, now);
  }

  ghost function Acts(c: Counter, actions: seq<Action>): (r: Counter)
    requires Valid(c)
    ensures Valid(r)
    decreases |actions|
  {
    if actions == [] then c
    else
      ActValid(c, actions[0]);
      Acts(Act(c, actions[0]), actions[1..])
  }

  /**
    What is still owed of the flushes waited for: a key's first answer, or failure, is that of the
    one it had in flight.
   */
  function Owed(awaited: set<Key>, actions: seq<Action>): set<Key> {
    if actions == [] then awaited
    else Owed(if actions[0].Requested? then awaited else awaited - {actions[0].key}, actions[1..])
  }

  /** The bucket once the flush taken from it, if it is one of these keys', has settled. */
  function SettledBucket(c: Counter, b: nat, keys: set<Key>, answers: Key -> Option<Row>): Bucket
    requires b < |c.heap|
  {
    var bucket := c.heap[b];
    if bucket.key !in keys || bucket.key !in c.inFlight || c.inFlight[bucket.key].bucket != b then bucket
    else
      match answers(bucket.key)
      case Some(row) => bucket.(synced := row.count, resetAt := row.resetAt)
      case None => bucket.(pending := bucket.pending + c.inFlight[bucket.key].delta)
  }

  /** The flushes of these keys have settled, in whatever order. */
  function Settle(c: Counter, keys: set<Key>, answers: Key -> Option<Row>): Counter {
    c.(heap := seq(|c.heap|, b requires 0 <= b < |c.heap| => SettledBucket(c, b, keys, answers)),
       inFlight := c.inFlight - keys)
  }

  lemma SettleValid(c: Counter, keys: set<Key>, answers: Key -> Option<Row>)
    requires Valid(c)
    ensures Valid(Settle(c, keys, answers))
  {
    hide NoDuplicates;
  }

  /** Settling one flush first changes nothing of where all of them settle. */
  lemma SettleOneFirst(c: Counter, key: Key, keys: set<Key>, answers: Key -> Option<Row>)
    requires Valid(c) && key in c.inFlight && key in keys
    ensures var c1 := match answers(key) { case Some(row) => Acknowledge(c, key, row) case None => Restore(c, key) };
            Settle(c1, keys, answers) == Settle(c, keys, answers)
  {
    hide NoDuplicates;
    var c1 := match answers(key) { case Some(row) => Acknowledge(c, key, row) case None => Restore(c, key) };
    forall b | 0 <= b < |c.heap| ensures SettledBucket(c1, b, keys, answers) == SettledBucket(c, b, keys, answers) {
    }
    assert Settle(c1, keys, answers).heap == Settle(c, keys, answers).heap;
    assert Settle(c1, keys, answers).inFlight == Settle(c, keys, answers).inFlight;
  }

  lemma SettledAlready(c: Counter, keys: set<Key>, answers: Key -> Option<Row>)
    requires forall k :: k in keys ==> k !in c.inFlight
    ensures Settle(c, keys, answers) == c
  {
    assert Settle(c, keys, answers).heap == c.heap;
    assert Settle(c, keys, answers).inFlight == c.inFlight;
  }

  /** A wait for the flushes of these keys. */
  ghost function Wait(c: Counter, awaited: set<Key>, turn: Turn): (r: Counter)
    requires Valid(c)
    ensures Valid(r)
  {
    var c1 := Acts(c, turn.actions);
    SettleValid(c1, Owed(awaited, turn.actions), turn.answers);
    Settle(c1, Owed(awaited, turn.actions), turn.answers)
  }

  // ---------------------------------------------------------------- one key while a shutdown waits

  predicate Requests(actions: seq<Action>, key: Key) {
    exists i :: 0 <= i < |actions| && actions[i].Requested? && actions[i].key == key
  }

  /** Whatever of the key ends during the wait ends well. */
  predicate Succeeds(turn: Turn, key: Key) {
    turn.answers(key).Some? && Failed(key) !in turn.actions
  }

  lemma ActOnKey(c: Counter, action: Action, key: Key)
    requires Valid(c) && !(action.Requested? && action.key == key)
    ensures key !in c.inFlight ==> key !in Act(c, action).inFlight
    ensures !action.Requested? && action.key == key ==> key !in Act(c, action).inFlight
    ensures Sent(c, key) && (key in c.inFlight ==> action != Failed(key)) ==> Sent(Act(c, action), key)
  {
    hide NoDuplicates, BeginHit, Acknowledge, Restore;
    if action.Requested? {
      HitKeepsSent(c, action.key, action.fixed, action.now, key);
    } else if action.key in c.inFlight {
      EndOnKey(c, action.key, if action.Answered? then action.row else Row(0, 0), key);
    }
  }

  lemma EndOnKey(c: Counter, ended: Key, row: Row, key: Key)
    requires Valid(c) && ended in c.inFlight
    ensures Acknowledge(c, ended, row).inFlight == c.inFlight - {ended} == Restore(c, ended).inFlight
    ensures Sent(c, key) ==> Sent(Acknowledge(c, ended, row), key)
    ensures Sent(c, key) && ended != key ==> Sent(Restore(c, ended), key)
  {
    hide NoDuplicates;
  }

  lemma {:induction false} ActsOnKey(c: Counter, awaited: set<Key>, actions: seq<Action>, key: Key)
    requires Valid(c) && !Requests(actions, key)
    ensures Owed(awaited, actions) <= awaited
    ensures key !in c.inFlight ==> key !in Acts(c, actions).inFlight
    ensures key in awaited && key in Acts(c, actions).inFlight ==> key in Owed(awaited, actions)
    ensures Sent(c, key) && (key in c.inFlight ==> Failed(key) !in actions) ==> Sent(Acts(c, actions), key)
    decreases |actions|
  {
    hide Valid, Act, Sent;
    if actions != [] {
      ActValid(c, actions[0]);
      assert !Requests(actions[1..], key) && Failed(key) !in actions ==> Failed(key) !in actions[1..];
      ActOnKey(c, actions[0], key);
      var owed := if actions[0].Requested? then awaited else awaited - {actions[0].key};
      ActsOnKey(Act(c, actions[0]), owed, actions[1..], key);
    }
  }

  lemma SettleOnKey(c: Counter, keys: set<Key>, answers: Key -> Option<Row>, key: Key)
    requires Valid(c) && Sent(c, key) && (key in c.inFlight ==> answers(key).Some?)
    ensures Sent(Settle(c, keys, answers), key)
  {
    hide NoDuplicates;
  }

  /**
    While a wait brings no request of the key, its flush ends if it is waited for, and nothing comes
    to wait unless that fails.
   */
  lemma WaitOnKey(c: Counter, awaited: set<Key>, turn: Turn, key: Key)
    requires Valid(c) && !Requests(turn.actions, key)
    ensures (key in c.inFlight ==> key in awaited) ==> key !in Wait(c, awaited, turn).inFlight
    ensures Sent(c, key) && (key in c.inFlight ==> Succeeds(turn, key)) ==> Sent(Wait(c, awaited, turn), key)
  {
    hide Valid, Sent, Acts, Owed;
    ActsOnKey(c, awaited, turn.actions, key);
    var c1 := Acts(c, turn.actions);
    if Sent(c, key) && (key in c.inFlight ==> Succeeds(turn, key)) {
      SettleOnKey(c1, Owed(awaited, turn.actions), turn.answers, key);
    }
  }

  lemma {:induction false} ActsArmNothing(c: Counter, actions: seq<Action>)
    requires Valid(c)
    ensures Acts(c, actions).timers == c.timers && Acts(c, actions).draining == c.draining
    decreases |actions|
  {
    hide Valid, Act;
    if actions != [] {
      ActValid(c, actions[0]);
      ActsArmNothing(Act(c, actions[0]), actions[1..]);
    }
  }

  // ---------------------------------------------------------------- the three passes of a shutdown

  /** Some live bucket of these keys has something to send. */
  predicate Waits(c: Counter, keys: seq<Key>) {
    exists i :: 0 <= i < |keys| && !Sent(c, keys[i])
  }

  /** The keys whose flush, started or found in flight, a pass over these keys waits for. */
  ghost function Awaited(c: Counter, keys: seq<Key>, now: int): set<Key>
    requires Valid(c)
    decreases |keys|
  {
    if keys == [] then {}
    else
      assert Valid(DrainKey(c, keys[0], now)) by {
        DrainKeySends(c, keys[0], now);
      }
      (if Flushes(c, keys[0], now) then {keys[0]} else {}) + Awaited(DrainKey(c, keys[0], now), keys[1..], now)
  }

  /** A pass waits for every flush it starts, and starts none for a key with nothing waiting. */
  lemma {:induction false} PassAwaits(c: Counter, keys: seq<Key>, now: int, key: Key)
    requires Valid(c) && key !in c.inFlight
    ensures key in DrainPass(c, keys, now).inFlight ==> key in Awaited(c, keys, now)
    ensures Sent(c, key) ==> key !in DrainPass(c, keys, now).inFlight
    decreases |keys|
  {
    hide Valid, DrainKey, Live;
    if keys != [] {
      var c1 := DrainKey(c, keys[0], now);
      DrainKeySends(c, keys[0], now);
      if key !in c1.inFlight {
        PassAwaits(c1, keys[1..], now, key);
      }
    }
  }

  /** `drain` from its pass `pass` on: wait for what is in flight, flush what waits, wait for that. */
  ghost function DrainFrom(c: Counter, pass: nat, nows: nat -> int, turns: nat -> Turn): (r: Counter)
    requires Valid(c) && pass <= 3
    ensures Valid(r)
    decreases 3 - pass
  {
    if pass == 3 then c
    else
      var c1 := Wait(c, c.inFlight.Keys, turns(2 * pass));
      if !Waits(c1, c1.order) then c1
      else
        var c2 := DrainPass(c1, c1.order, nows(pass));
        DrainFrom(Wait(c2, Awaited(c1, c1.order, nows(pass)), turns(2 * pass + 1)), pass + 1, nows, turns)
  }

  /** No request of the key comes in from the wait `from` on. */
  predicate NoRequests(turns: nat -> Turn, from: nat, key: Key) {
    forall i :: from <= i < 6 ==> !Requests(turns(i).actions, key)
  }

  /** In some pass from `pass` on the key's flush succeeds, and no request of it comes in from its start on. */
  predicate Delivered(turns: nat -> Turn, pass: nat, key: Key) {
    exists i :: pass <= i < 3 && NoRequests(turns, 2 * i, key) && Succeeds(turns(2 * i + 1), key)
  }

  lemma NoneWaits(c: Counter, key: Key)
    requires Valid(c) && !Waits(c, c.order)
    ensures Sent(c, key)
  {
    hide NoDuplicates;
    if key in c.table {
      assert key in c.order;
    }
  }

  /** A pass, for a key that no request comes in for. */
  lemma PassOnKey(c: Counter, turns: nat -> Turn, pass: nat, now: int, key: Key)
    requires Valid(c) && pass < 3 && NoRequests(turns, 2 * pass, key)
    ensures var c1 := Wait(c, c.inFlight.Keys, turns(2 * pass));
            var c2 := Wait(DrainPass(c1, c1.order, now), Awaited(c1, c1.order, now), turns(2 * pass + 1));
            && key !in c1.inFlight && key !in c2.inFlight
            && (Succeeds(turns(2 * pass + 1), key) || Sent(c1, key) ==> Sent(c2, key))
            && (Sent(c, key) && key !in c.inFlight ==> Sent(c1, key))
  {
    hide Valid, Sent, Succeeds, Requests, Wait, DrainPass, Awaited;
    var first, second := turns(2 * pass), turns(2 * pass + 1);
    WaitOnKey(c, c.inFlight.Keys, first, key);
    var c1 := Wait(c, c.inFlight.Keys, first);
    TableSent(c1, key, now);
    PassAwaits(c1, c1.order, now, key);
    WaitOnKey(DrainPass(c1, c1.order, now), Awaited(c1, c1.order, now), second, key);
  }

  /** What has been sent and answered stays so. */
  lemma {:induction false} SettledStays(c: Counter, pass: nat, nows: nat -> int, turns: nat -> Turn, key: Key)
    requires Valid(c) && pass <= 3 && NoRequests(turns, 2 * pass, key)
    requires Sent(c, key) && key !in c.inFlight
    ensures Sent(DrainFrom(c, pass, nows, turns), key) && key !in DrainFrom(c, pass, nows, turns).inFlight
    decreases 3 - pass
  {
    hide Valid, Sent, Wait, DrainPass, Awaited, Waits, Requests, Succeeds;
    if pass < 3 {
      PassOnKey(c, turns, pass, nows(pass), key);
      var c1 := Wait(c, c.inFlight.Keys, turns(2 * pass));
      if Waits(c1, c1.order) {
        var c2 := DrainPass(c1, c1.order, nows(pass));
        SettledStays(Wait(c2, Awaited(c1, c1.order, nows(pass)), turns(2 * pass + 1)), pass + 1, nows, turns, key);
      }
    }
  }

  /**
    Main result 3: whatever else a shutdown's waits bring, a key that no request
    comes in for has nothing in flight at its end, and nothing waiting in its live
    bucket once its own flush succeeds in a pass after its last request.
   */
  lemma {:induction false} ShutdownSendsAll(c: Counter, pass: nat, nows: nat -> int, turns: nat -> Turn, key: Key)
    requires Valid(c) && pass <= 3
    ensures pass < 3 && NoRequests(turns, 2 * pass, key) ==> key !in DrainFrom(c, pass, nows, turns).inFlight
    ensures Delivered(turns, pass, key) ==> Live(DrainFrom(c, pass, nows, turns), key) == 0
    decreases 3 - pass
  {
    hide Valid, Live, Wait, DrainPass, Awaited, Waits, Requests, Succeeds;
    if pass < 3 {
      var c1 := Wait(c, c.inFlight.Keys, turns(2 * pass));
      if NoRequests(turns, 2 * pass, key) {
        PassOnKey(c, turns, pass, nows(pass), key);
      }
      if !Waits(c1, c1.order) {
        NoneWaits(c1, key);
      } else {
        var c2 := DrainPass(c1, c1.order, nows(pass));
        var c3 := Wait(c2, Awaited(c1, c1.order, nows(pass)), turns(2 * pass + 1));
        ShutdownSendsAll(c3, pass + 1, nows, turns, key);
        if NoRequests(turns, 2 * pass, key) && Sent(c3, key) {
          SettledStays(c3, pass + 1, nows, turns, key);
        }
      }
    }
  }

  /** A shutdown arms no timer, whatever comes in meanwhile. */
  lemma {:induction false} ShutdownArmsNothing(c: Counter, pass: nat, nows: nat -> int, turns: nat -> Turn)
    requires Valid(c) && pass <= 3
    ensures var c1 := DrainFrom(c, pass, nows, turns); c1.timers == c.timers && c1.draining == c.draining
    decreases 3 - pass
  {
    hide Valid, Acts, Owed, DrainPass, Awaited, Waits;
    if pass < 3 {
      ActsArmNothing(c, turns(2 * pass).actions);
      var c1 := Wait(c, c.inFlight.Keys, turns(2 * pass));
      if Waits(c1, c1.order) {
        OrderIsDistinct(c1);
        DrainPassSends(c1, c1.order, nows(pass));
        var c2 := DrainPass(c1, c1.order, nows(pass));
        ActsArmNothing(c2, turns(2 * pass + 1).actions);
        ShutdownArmsNothing(Wait(c2, Awaited(c1, c1.order, nows(pass)), turns(2 * pass + 1)), pass + 1, nows, turns);
      }
    }
  }

  lemma OrderIsDistinct(c: Counter)
    requires Valid(c)
    ensures NoDuplicates(c.order)
  {
  }
}
