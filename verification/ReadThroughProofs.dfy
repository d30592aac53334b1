/** No read yields a value older than a write of its key that had returned before the read started. */
module ReadThroughProofs {
  import opened Common
  import opened ReadThroughSpec

  // ---------------------------------------------------------------- the invariant

  /** The reading is what the database held for the key after `version` writes. */
  predicate Genuine(w: World, key: Key, reading: Reading) {
    reading.version <= |LogOf(w, key)| && reading.value == At(LogOf(w, key), reading.version)
  }

  predicate AtLeast(w: World, key: Key, reading: Reading, floor: nat) {
    Genuine(w, key, reading) && reading.version >= floor
  }

  ghost predicate QueriesGenuine(w: World) {
    forall q, k :: 0 <= q < |w.queries| && w.queries[q].result.Some? && k in w.queries[q].result.value ==>
      Genuine(w, k, w.queries[q].result.value[k])
  }

  ghost predicate QueriesComplete(w: World) {
    forall q :: 0 <= q < |w.queries| && w.queries[q].result.Some? ==>
        w.queries[q].result.value.Keys == w.queries[q].keys
  }

  /** No write or floor is ahead of the log. */
  ghost predicate WritesLogged(w: World) {
    && (forall i :: 0 <= i < |w.writes| ==> w.writes[i].version <= |LogOf(w, w.writes[i].key)|)
    && (forall k :: k in w.floor ==> w.floor[k] <= |LogOf(w, k)|)
  }

  /** A query's answer for a key, if there is one yet, is at least this new. */
  predicate AnswerAtLeast(w: World, key: Key, q: nat, floor: nat) {
    && q < |w.queries|
    && key in w.queries[q].keys
    && (w.queries[q].result.Some? && key in w.queries[q].result.value ==>
        w.queries[q].result.value[key].version >= floor)
  }

  /** Cached values and awaited answers are at least as new as what has returned. */
  ghost predicate CacheFresh(w: World) {
    && w.cache.made == |w.queries|
    && (forall k :: k in w.cache.entries ==> AtLeast(w, k, w.cache.entries[k].reading, FloorOf(w, k)))
    && (forall k :: k in w.cache.inFlight ==> AnswerAtLeast(w, k, w.cache.inFlight[k], FloorOf(w, k)))
  }

  predicate ReadFresh(w: World, read: Read) {
    read.floor <= |LogOf(w, read.key)| &&
    match read.lookup
    case Found(reading) => AtLeast(w, read.key, reading, read.floor)
    case Awaits(q) => AnswerAtLeast(w, read.key, q, read.floor)
  }

  ghost predicate ReadsFresh(w: World) {
    forall i :: 0 <= i < |w.started| ==> ReadFresh(w, w.started[i])
  }

  /** A key is never cached while a query for it is in flight. */
  ghost predicate Disjoint(w: World) {
    forall k :: k in w.cache.entries ==> k !in w.cache.inFlight
  }

  ghost predicate Inv(w: World) {
    QueriesGenuine(w) && QueriesComplete(w) && WritesLogged(w) && CacheFresh(w) && ReadsFresh(w) && Disjoint(w)
  }

  // ---------------------------------------------------------------- growth of the log

  /** The logs only grow. */
  ghost predicate Grows(w: World, w1: World) {
    forall k :: |LogOf(w, k)| <= |LogOf(w1, k)| && LogOf(w1, k)[..|LogOf(w, k)|] == LogOf(w, k)
  }

  lemma GenuineStays(w: World, w1: World, key: Key, reading: Reading)
    requires Grows(w, w1) && Genuine(w, key, reading)
    ensures Genuine(w1, key, reading)
  {
    if reading.version > 0 {
      assert LogOf(w1, key)[..|LogOf(w, key)|][reading.version - 1] == LogOf(w, key)[reading.version - 1];
    }
  }

  lemma StepGrows(w: World, step: Step)
    requires Enabled(w, step)
    ensures Grows(w, Next(w, step))
  {
    var w1 := Next(w, step);
    forall k ensures |LogOf(w, k)| <= |LogOf(w1, k)| && LogOf(w1, k)[..|LogOf(w, k)|] == LogOf(w, k) {
    }
  }

  // ---------------------------------------------------------------- step by step

  lemma WriteKeepsInv(w: World, step: Step)
    requires Inv(w) && Enabled(w, step) && (step.Writes? || step.ReplacesIfUnchanged? || step.WrittenElsewhere?)
    ensures Inv(Next(w, step))
  {
    hide Genuine, At;
    StepGrows(w, step);
    var w1 := Next(w, step);
    assert w1.cache == w.cache && w1.queries == w.queries && w1.started == w.started && w1.floor == w.floor;
    WriteKeepsWrites(w, step);
    hide WritesLogged, Next;
    forall q, k | 0 <= q < |w.queries| && w.queries[q].result.Some? && k in w.queries[q].result.value
      ensures Genuine(w1, k, w.queries[q].result.value[k]) {
      GenuineStays(w, w1, k, w.queries[q].result.value[k]);
    }
    forall k | k in w.cache.entries ensures AtLeast(w1, k, w.cache.entries[k].reading, FloorOf(w, k)) {
      GenuineStays(w, w1, k, w.cache.entries[k].reading);
    }
    forall i | 0 <= i < |w.started| ensures ReadFresh(w1, w.started[i]) {
      if w.started[i].lookup.Found? {
        GenuineStays(w, w1, w.started[i].key, w.started[i].lookup.reading);
      }
    }
  }

  lemma WriteKeepsWrites(w: World, step: Step)
    requires WritesLogged(w) && Enabled(w, step) && Grows(w, Next(w, step))
    requires step.Writes? || step.ReplacesIfUnchanged? || step.WrittenElsewhere?
    ensures WritesLogged(Next(w, step))
  {
  }

  lemma {:induction false} DistinctKeys(keys: seq<Key>)
    ensures forall k :: k in Distinct(keys) <==> k in keys
    ensures forall i, j :: 0 <= i < j < |Distinct(keys)| ==> Distinct(keys)[i] != Distinct(keys)[j]
  {
    if keys != [] {
      DistinctKeys(keys[..|keys| - 1]);
      assert keys == keys[..|keys| - 1] + [keys[|keys| - 1]];
    }
  }

  lemma LookupsFresh(w: World, keys: seq<Key>, now: int, i: nat)
    requires Inv(w) && i < |Distinct(keys)|
    ensures ReadFresh(Next(w, Reads(keys, now)), NewReads(w, Distinct(keys), now)[i])
  {
    hide Genuine, At, QueriesGenuine, QueriesComplete, ReadsFresh, Disjoint, Distinct;
    DistinctKeys(keys);
    var key := Distinct(keys)[i];
    assert key in Distinct(keys);
    var w1 := Next(w, Reads(keys, now));
    assert Grows(w, w1) && FloorOf(w, key) <= |LogOf(w, key)|;
    if Fresh(w.cache, key, now) {
      GenuineStays(w, w1, key, w.cache.entries[key].reading);
    } else if key !in w.cache.inFlight {
      assert key in Missing(w.cache, KeySet(keys), now);
    }
  }

  lemma ReadKeepsReads(w: World, keys: seq<Key>, now: int)
    requires Inv(w)
    ensures ReadsFresh(Next(w, Reads(keys, now)))
  {
    hide Genuine, At, Distinct, LookupOf, Missing, Start;
    var w1 := Next(w, Reads(keys, now));
    StepGrows(w, Reads(keys, now));
    assert w1.queries[..|w.queries|] == w.queries;
    forall i | 0 <= i < |w1.started| ensures ReadFresh(w1, w1.started[i]) {
      if i < |w.started| {
        OldReadsStay(w, w1, w.started[i]);
      } else {
        LookupsFresh(w, keys, now, i - |w.started|);
      }
    }
  }

  lemma ReadKeepsInv(w: World, keys: seq<Key>, now: int)
    requires Inv(w)
    ensures Inv(Next(w, Reads(keys, now)))
  {
    hide Genuine, At, Distinct, NewReads, ReadsFresh, LogOf;
    ReadKeepsReads(w, keys, now);
    var w1 := Next(w, Reads(keys, now));
    StepGrows(w, Reads(keys, now));
    forall q, k | 0 <= q < |w1.queries| && w1.queries[q].result.Some? && k in w1.queries[q].result.value
      ensures Genuine(w1, k, w1.queries[q].result.value[k]) {
      GenuineStays(w, w1, k, w.queries[q].result.value[k]);
    }
    forall k | k in w1.cache.entries ensures AtLeast(w1, k, w1.cache.entries[k].reading, FloorOf(w, k)) {
      GenuineStays(w, w1, k, w.cache.entries[k].reading);
    }
  }

  lemma OldReadsStay(w: World, w1: World, read: Read)
    requires Grows(w, w1) && ReadFresh(w, read)
    requires |w.queries| <= |w1.queries| && w1.queries[..|w.queries|] == w.queries
    ensures ReadFresh(w1, read)
  {
    hide Genuine;
    match read.lookup
    case Found(reading) => GenuineStays(w, w1, read.key, reading);
    case Awaits(q) => assert w1.queries[..|w.queries|][q] == w.queries[q];
  }

  lemma ExecuteKeepsInv(w: World, q: nat)
    requires Inv(w) && Enabled(w, Executes(q))
    ensures Inv(Next(w, Executes(q)))
  {
    hide At, AnswerAtLeast;
    var w1 := Next(w, Executes(q));
    assert WritesLogged(w1) && Disjoint(w1) && QueriesComplete(w1);
    ExecuteKeepsQueries(w, q);
    forall key, i, floor: nat | AnswerAtLeast(w, key, i, floor) && floor <= |LogOf(w, key)|
      ensures AnswerAtLeast(w1, key, i, floor) {
      AnswerComes(w, q, key, i, floor);
    }
    hide Next;
    forall i | 0 <= i < |w.started| ensures ReadFresh(w1, w.started[i]) {
      assert ReadFresh(w, w.started[i]);
    }
  }

  lemma ExecuteKeepsQueries(w: World, q: nat)
    requires QueriesGenuine(w) && Enabled(w, Executes(q))
    ensures QueriesGenuine(Next(w, Executes(q)))
    ensures forall k, reading :: Genuine(w, k, reading) ==> Genuine(Next(w, Executes(q)), k, reading)
  {
    hide At;
  }

  lemma AnswerComes(w: World, q: nat, key: Key, i: nat, floor: nat)
    requires Enabled(w, Executes(q)) && AnswerAtLeast(w, key, i, floor) && floor <= |LogOf(w, key)|
    ensures AnswerAtLeast(Next(w, Executes(q)), key, i, floor)
  {
    hide At;
  }

  /** The steps that only move values between queries and the cache, or remove them. */
  lemma CacheStepKeepsInv(w: World, step: Step)
    requires Inv(w) && Enabled(w, step)
    requires step.Resolves? || step.Rejects? || step.WriteReturns? || step.Evicts? || step.Clears?
    ensures Inv(Next(w, step))
  {
    hide At, Genuine, WritesLogged;
    var w1 := Next(w, step);
    SameLog(w, w1);
    assert WritesLogged(w1) by {
      CacheStepKeepsWrites(w, step);
    }
  }

  lemma SameLog(w: World, w1: World)
    requires w1.log == w.log && w1.queries == w.queries && w1.started == w.started
    ensures QueriesGenuine(w) ==> QueriesGenuine(w1)
    ensures QueriesComplete(w) ==> QueriesComplete(w1)
    ensures ReadsFresh(w) ==> ReadsFresh(w1)
    ensures forall k, reading :: Genuine(w, k, reading) ==> Genuine(w1, k, reading)
  {
    forall i | 0 <= i < |w.started| && ReadFresh(w, w.started[i]) ensures ReadFresh(w1, w.started[i]) {
    }
  }

  lemma CacheStepKeepsWrites(w: World, step: Step)
    requires WritesLogged(w) && Enabled(w, step)
    requires step.Resolves? || step.Rejects? || step.WriteReturns? || step.Evicts? || step.Clears?
    ensures WritesLogged(Next(w, step))
  {
    assert Next(w, step).log == w.log;
  }

  lemma StepKeepsInv(w: World, step: Step)
    requires Inv(w) && Enabled(w, step)
    ensures Inv(Next(w, step))
  {
    hide Inv, Next;
    match step
    case Reads(keys, now) => ReadKeepsInv(w, keys, now);
    case Executes(q) => ExecuteKeepsInv(w, q);
    case Writes(_, _) => WriteKeepsInv(w, step);
    case ReplacesIfUnchanged(_, _, _) => WriteKeepsInv(w, step);
    case WrittenElsewhere(_, _) => WriteKeepsInv(w, step);
    case _ => CacheStepKeepsInv(w, step);
  }

  /** An empty cache over any database. */
  ghost predicate Starts(w: World) {
    && w.cache == Cache(map[], map[], 0)
    && w.queries == [] && w.writes == [] && w.floor == map[] && w.started == []
  }

  lemma {:induction false} RunKeepsInv(w: World, steps: seq<Step>)
    requires Inv(w) && IsRun(w, steps)
    ensures Inv(Run(w, steps))
    decreases |steps|
  {
    hide Inv, Next;
    if steps != [] {
      StepKeepsInv(w, steps[0]);
      RunKeepsInv(Next(w, steps[0]), steps[1..]);
    }
  }

  // ---------------------------------------------------------------- main results

  /**
    Main result 1, for every interleaving: what a read yields was in the
    database for its key, and is no older than any write of that key that had
    returned when the read started.
   */
  lemma NoStaleReads(w: World, steps: seq<Step>, i: nat)
    requires Starts(w) && IsRun(w, steps) && i < |Run(w, steps).started|
    ensures var w1 := Run(w, steps);
            var read := w1.started[i];
            var reading := Outcome(w1, read);
            reading.Some? ==> Genuine(w1, read.key, reading.value) && reading.value.version >= read.floor
  {
    RunKeepsInv(w, steps);
    var w1 := Run(w, steps);
    assert ReadFresh(w1, w1.started[i]);
  }

  /** The row is absent for readers from this version on: a revoked key is never un-revoked. */
  predicate AbsentFrom(log: seq<Option<Value>>, version: nat) {
    0 < version <= |log| && forall i :: version - 1 <= i < |log| ==> log[i] == None
  }

  /** Main result 2: a key validated after its revocation returned is refused, whatever was cached or in flight. */
  lemma RevokedKeyIsRefused(w: World, steps: seq<Step>, i: nat, version: nat)
    requires Starts(w) && IsRun(w, steps) && i < |Run(w, steps).started|
    requires var read := Run(w, steps).started[i];
             AbsentFrom(LogOf(Run(w, steps), read.key), version) && read.floor >= version
    ensures var w1 := Run(w, steps);
            var reading := Outcome(w1, w1.started[i]);
            reading.Some? ==> reading.value.value == None
  {
    NoStaleReads(w, steps, i);
  }

  /** What a read records: the floor is raised by each returned write, and only by those. */
  lemma FloorIsLatestReturn(w: World, step: Step, key: Key)
    requires Enabled(w, step)
    ensures FloorOf(Next(w, step), key)
         == if step.WriteReturns? && w.writes[step.i].key == key
            then Max(FloorOf(w, key), w.writes[step.i].version) else FloorOf(w, key)
    ensures step.Reads? && key in step.keys ==>
              exists i :: |w.started| <= i < |Next(w, step).started|
                       && Next(w, step).started[i] == Read(key, FloorOf(w, key), LookupOf(w.cache, key, step.now))
  {
    if step.Reads? && key in step.keys {
      DistinctKeys(step.keys);
      var j :| 0 <= j < |Distinct(step.keys)| && Distinct(step.keys)[j] == key;
      assert Next(w, step).started[|w.started| + j] == NewReads(w, Distinct(step.keys), step.now)[j];
    }
  }

  /**
    Main result 3: a query is made only for keys that nothing is cached or in flight for, so no key
    is queried twice at once.
   */
  lemma OneQueryPerKey(w: World, keys: seq<Key>, now: int)
    requires Inv(w)
    ensures var w1 := Next(w, Reads(keys, now));
            && |w.queries| <= |w1.queries| <= |w.queries| + 1
            && (|w1.queries| > |w.queries| ==>
                  forall k :: k in w1.queries[|w.queries|].keys <==>
                    k in keys && !Fresh(w.cache, k, now) && k !in w.cache.inFlight)
            && (forall k :: k in w.cache.inFlight ==>
                k in w1.cache.inFlight && w1.cache.inFlight[k] == w.cache.inFlight[k])
            && (forall k :: k in w1.cache.entries ==> k !in w1.cache.inFlight)
  {
    ReadKeepsInv(w, keys, now);
  }

  // ---------------------------------------------------------------- how long a value is served

  /** The step that put a value into the cache, if it did: the query's answer, for as long as it said. */
  predicate Fills(w: World, step: Step, key: Key, cached: Cached) {
    && step.Resolves? && step.key == key && Enabled(w, step)
    && cached == Cached(w.queries[step.query].result.value[key], step.expiresAt)
  }

  /** Every cached value was put there by one of these steps. */
  ghost predicate Filled(w: World, steps: seq<Step>, key: Key, cached: Cached)
    requires IsRun(w, steps)
    decreases |steps|
  {
    steps != [] && (Fills(w, steps[0], key, cached) || Filled(Next(w, steps[0]), steps[1..], key, cached))
  }

  lemma {:induction false} CachedWasFilled(w: World, steps: seq<Step>, key: Key)
    requires IsRun(w, steps) && key in Run(w, steps).cache.entries
    ensures (key in w.cache.entries && w.cache.entries[key] == Run(w, steps).cache.entries[key])
            || Filled(w, steps, key, Run(w, steps).cache.entries[key])
    decreases |steps|
  {
    hide Next, Fills;
    if steps != [] {
      CachedWasFilled(Next(w, steps[0]), steps[1..], key);
      if key in Next(w, steps[0]).cache.entries {
        OnlyAnswersFill(w, steps[0], key);
      }
    }
  }

  lemma OnlyAnswersFill(w: World, step: Step, key: Key)
    requires Enabled(w, step) && key in Next(w, step).cache.entries
    ensures (key in w.cache.entries && w.cache.entries[key] == Next(w, step).cache.entries[key])
            || Fills(w, step, key, Next(w, step).cache.entries[key])
  {
    hide At, LogOf, NewReads, Distinct, Missing;
  }

  /**
    Main result 4: a read that is answered at once gets what an earlier query
    answered for its key, and gets it before the time that answer was to be kept
    until: a value that others changed is served no longer than that.
   */
  lemma ServedUntilExpiry(w: World, steps: seq<Step>, key: Key, now: int)
    requires Starts(w) && IsRun(w, steps) && LookupOf(Run(w, steps).cache, key, now).Found?
    ensures exists expiresAt ::
              && now < expiresAt
              && Filled(w, steps, key, Cached(LookupOf(Run(w, steps).cache, key, now).reading, expiresAt))
  {
    hide Filled;
    CachedWasFilled(w, steps, key);
    var cached := Run(w, steps).cache.entries[key];
    assert cached == Cached(LookupOf(Run(w, steps).cache, key, now).reading, cached.expiresAt);
  }

  /**
    A step that takes the key's value out of the cache: a write, an eviction, a reset, or a read
    once it is expired.
   */
  predicate Removes(w: World, step: Step, key: Key, expiresAt: int) {
    || step.Clears?
    || (step.Evicts? && step.key == key)
    || (step.WriteReturns? && step.i < |w.writes| && w.writes[step.i].key == key)
    || (step.Reads? && key in step.keys && step.now >= expiresAt)
  }

  ghost predicate Undisturbed(w: World, steps: seq<Step>, key: Key, expiresAt: int)
    requires IsRun(w, steps)
    decreases |steps|
  {
    steps != [] ==> !Removes(w, steps[0], key, expiresAt) && Undisturbed(Next(w, steps[0]), steps[1..], key, expiresAt)
  }

  lemma {:induction false} UndisturbedStaysCached(w: World, steps: seq<Step>, key: Key)
    requires Inv(w) && IsRun(w, steps) && key in w.cache.entries
    requires Undisturbed(w, steps, key, w.cache.entries[key].expiresAt)
    ensures key in Run(w, steps).cache.entries && Run(w, steps).cache.entries[key] == w.cache.entries[key]
    decreases |steps|
  {
    hide Inv, Next, Removes;
    if steps != [] {
      StepKeepsInv(w, steps[0]);
      StepStaysCached(w, steps[0], key);
      UndisturbedStaysCached(Next(w, steps[0]), steps[1..], key);
    }
  }

  lemma StepStaysCached(w: World, step: Step, key: Key)
    requires Inv(w) && Enabled(w, step) && key in w.cache.entries
    requires !Removes(w, step, key, w.cache.entries[key].expiresAt)
    ensures key in Next(w, step).cache.entries && Next(w, step).cache.entries[key] == w.cache.entries[key]
  {
    hide At, LogOf, NewReads, Distinct, QueriesGenuine, QueriesComplete, WritesLogged, CacheFresh, ReadsFresh;
  }

  /** A kept answer that nothing removes is served at once up to its time, and asked for again from then on. */
  lemma ServedExactlyUntilExpiry(w: World, steps: seq<Step>, key: Key, now: int)
    requires Inv(w) && IsRun(w, steps) && key in w.cache.entries
    requires Undisturbed(w, steps, key, w.cache.entries[key].expiresAt)
    ensures LookupOf(Run(w, steps).cache, key, now)
         == if now < w.cache.entries[key].expiresAt then Found(w.cache.entries[key].reading)
            else Awaits(Run(w, steps).cache.made)
  {
    hide Undisturbed;
    UndisturbedStaysCached(w, steps, key);
    RunKeepsInv(w, steps);
  }

  /** The key of a write that returns, or any key when all is reset. */
  predicate Forgets(w: World, step: Step, key: Key) {
    step.Clears? || (step.WriteReturns? && step.i < |w.writes| && w.writes[step.i].key == key)
  }

  /** After a returned write or a reset the next read asks the database, and no other key notices a write. */
  lemma ForgottenIsAskedAgain(w: World, step: Step, key: Key, now: int)
    requires Enabled(w, step) && (step.Clears? || step.WriteReturns?)
    ensures LookupOf(Next(w, step).cache, key, now)
         == if Forgets(w, step, key) then Awaits(w.cache.made) else LookupOf(w.cache, key, now)
  {
  }

  /** After a failed query the next read of its key asks again; a query the key no longer waits for changes nothing. */
  lemma FailedIsAskedAgain(w: World, query: nat, key: Key, now: int)
    requires Inv(w)
    ensures var waits := key in w.cache.inFlight && w.cache.inFlight[key] == query;
            var after := Next(w, Rejects(query, key)).cache;
            && (waits ==> LookupOf(after, key, now) == Awaits(w.cache.made))
            && (!waits ==> after == w.cache)
            && forall k :: k != key ==> LookupOf(after, k, now) == LookupOf(w.cache, k, now)
  {
    hide QueriesGenuine, QueriesComplete, WritesLogged, CacheFresh, ReadsFresh;
  }

  // ---------------------------------------------------------------- reads one after the other

  /** Neither the cache nor the answer of the key's query in flight is older than this version. */
  predicate NoOlder(w: World, key: Key, version: nat) {
    && version <= |LogOf(w, key)|
    && (key in w.cache.entries ==> w.cache.entries[key].reading.version >= version)
    && (key in w.cache.inFlight ==> AnswerAtLeast(w, key, w.cache.inFlight[key], version))
  }

  /** The read yields, or will yield, at least this version. */
  predicate YieldsAtLeast(w: World, read: Read, version: nat) {
    match read.lookup
    case Found(reading) => reading.version >= version
    case Awaits(q) => AnswerAtLeast(w, read.key, q, version)
  }

  lemma LogGrows(w: World, step: Step, key: Key)
    requires Enabled(w, step)
    ensures |LogOf(w, key)| <= |LogOf(Next(w, step), key)|
  {
    hide Next;
    StepGrows(w, step);
  }

  /** An answer still to come is the newest version. */
  lemma AnswerStays(w: World, step: Step, key: Key, q: nat, version: nat)
    requires Enabled(w, step) && AnswerAtLeast(w, key, q, version) && version <= |LogOf(w, key)|
    ensures AnswerAtLeast(Next(w, step), key, q, version)
  {
    hide At, Start, NewReads, Missing, Distinct;
  }

  lemma NoOlderStays(w: World, step: Step, key: Key, version: nat)
    requires Inv(w) && Enabled(w, step) && NoOlder(w, key, version)
    ensures NoOlder(Next(w, step), key, version)
  {
    hide At, LogOf, Distinct, NewReads, QueriesGenuine, WritesLogged, ReadsFresh, Current;
    LogGrows(w, step, key);
    if key in w.cache.inFlight {
      AnswerStays(w, step, key, w.cache.inFlight[key], version);
    }
  }

  /** A read that starts yields no less than the cache and the queries in flight hold. */
  lemma NewReadYields(w: World, keys: seq<Key>, now: int, i: nat, version: nat)
    requires Inv(w) && i < |Distinct(keys)| && NoOlder(w, Distinct(keys)[i], version)
    ensures YieldsAtLeast(Next(w, Reads(keys, now)), NewReads(w, Distinct(keys), now)[i], version)
  {
    hide At, LogOf, Distinct, QueriesGenuine, QueriesComplete, WritesLogged, ReadsFresh;
    DistinctKeys(keys);
    var key := Distinct(keys)[i];
    assert key in Distinct(keys);
    if !Fresh(w.cache, key, now) && key !in w.cache.inFlight {
      assert key in Missing(w.cache, KeySet(keys), now);
    }
  }

  /** Every read of the key from the `first` on yields at least this version. */
  ghost predicate ReadsYield(w: World, first: nat, key: Key, version: nat) {
    forall i :: first <= i < |w.started| && w.started[i].key == key ==> YieldsAtLeast(w, w.started[i], version)
  }

  lemma ReadsYieldStays(w: World, step: Step, first: nat, key: Key, version: nat)
    requires Inv(w) && Enabled(w, step) && NoOlder(w, key, version) && ReadsYield(w, first, key, version)
    ensures ReadsYield(Next(w, step), first, key, version)
  {
    hide Inv, AnswerAtLeast, LookupOf, Distinct;
    var w1 := Next(w, step);
    forall i | first <= i < |w1.started| && w1.started[i].key == key ensures YieldsAtLeast(w1, w1.started[i], version) {
      if i < |w.started| {
        assert w1.started[i] == w.started[i];
        if w.started[i].lookup.Awaits? {
          AnswerStays(w, step, key, w.started[i].lookup.query, version);
        }
      } else {
        ReadIsNew(w, step.keys, step.now, i - |w.started|);
        NewReadYields(w, step.keys, step.now, i - |w.started|, version);
      }
    }
  }

  lemma ReadIsNew(w: World, keys: seq<Key>, now: int, i: nat)
    requires i < |Distinct(keys)|
    ensures Next(w, Reads(keys, now)).started[|w.started| + i] == NewReads(w, Distinct(keys), now)[i]
    ensures NewReads(w, Distinct(keys), now)[i].key == Distinct(keys)[i]
  {
    hide Distinct;
  }

  lemma {:induction false} RunYields(w: World, steps: seq<Step>, first: nat, key: Key, version: nat)
    requires Inv(w) && IsRun(w, steps) && NoOlder(w, key, version) && ReadsYield(w, first, key, version)
    ensures ReadsYield(Run(w, steps), first, key, version)
    decreases |steps|
  {
    hide Inv, Next, NoOlder, ReadsYield;
    if steps != [] {
      StepKeepsInv(w, steps[0]);
      NoOlderStays(w, steps[0], key, version);
      ReadsYieldStays(w, steps[0], first, key, version);
      RunYields(Next(w, steps[0]), steps[1..], first, key, version);
    }
  }

  /** Whatever happens next, no read of the key that starts from now on yields less than this version. */
  ghost predicate NeverGoesBack(w: World, key: Key, version: nat) {
    forall steps, i :: IsRun(w, steps) && |w.started| <= i < |Run(w, steps).started| ==>
      var w1 := Run(w, steps);
      w1.started[i].key == key && Outcome(w1, w1.started[i]).Some? ==>
        Outcome(w1, w1.started[i]).value.version >= version
  }

  /**
    Main result 5: reads go back behind a version the database has reached
    exactly when an older one is cached, or has been read by the query the key
    waits for.
   */
  lemma GoesBackExactlyWhen(w: World, key: Key, version: nat)
    requires Inv(w) && version <= |LogOf(w, key)|
    ensures NeverGoesBack(w, key, version) <==> NoOlder(w, key, version)
  {
    hide Inv, Next, NoOlder, YieldsAtLeast, Outcome;
    if NoOlder(w, key, version) {
      forall steps, i | IsRun(w, steps) && |w.started| <= i < |Run(w, steps).started|
        ensures var w1 := Run(w, steps);
                w1.started[i].key == key && Outcome(w1, w1.started[i]).Some? ==>
                  Outcome(w1, w1.started[i]).value.version >= version
      {
        RunYields(w, steps, |w.started|, key, version);
        var w1 := Run(w, steps);
        if w1.started[i].key == key {
          YieldBounds(w1, w1.started[i], version);
        }
      }
    } else {
      var now := OlderRead(w, key, version);
      var steps := [Reads([key], now)];
      assert Run(w, steps) == Next(w, steps[0]) by {
        assert steps[1..] == [];
      }
      assert IsRun(w, steps);
    }
  }

  lemma YieldBounds(w: World, read: Read, version: nat)
    requires YieldsAtLeast(w, read, version)
    ensures Outcome(w, read).Some? ==> Outcome(w, read).value.version >= version
  {
  }

  /** The next read finds the older value, or joins the query that has it. */
  lemma OlderRead(w: World, key: Key, version: nat) returns (now: int)
    requires Inv(w) && version <= |LogOf(w, key)| && !NoOlder(w, key, version)
    ensures var w1 := Next(w, Reads([key], now));
            && |w1.started| == |w.started| + 1 && w1.started[|w.started|].key == key
            && Outcome(w1, w1.started[|w.started|]).Some?
            && Outcome(w1, w1.started[|w.started|]).value.version < version
  {
    hide At, LogOf, QueriesGenuine, WritesLogged, ReadsFresh;
    now := if key in w.cache.entries then w.cache.entries[key].expiresAt - 1 else 0;
    assert Distinct([key]) == [key] by {
      assert [key][..0] == [];
    }
    ReadIsNew(w, [key], now, 0);
  }

  /** The step answers the read from the cache, or runs its query while the key still waits for that query. */
  predicate AnsweredInOrder(w: World, step: Step, read: Read) {
    match step
    case Reads(keys, now) =>
      read.key in keys && read.lookup == LookupOf(w.cache, read.key, now) && read.lookup.Found?
    case Executes(q) =>
      read.lookup == Awaits(q) && read.key in w.cache.inFlight && w.cache.inFlight[read.key] == q
    case _ => false
  }

  /**
    Main result 6: once a read was answered in order, no read that starts later
    yields anything older. One may only be older than the answer of a query that
    a write, a failure or a reset had overtaken before the database ran it.
   */
  lemma LaterReadsAreNoOlder(w: World, step: Step, read: Read)
    requires Inv(w) && Enabled(w, step) && AnsweredInOrder(w, step, read)
    ensures var w1 := Next(w, step);
            Outcome(w1, read).Some? && NeverGoesBack(w1, read.key, Outcome(w1, read).value.version)
  {
    hide NeverGoesBack;
    AnswerIsNewest(w, step, read);
    StepKeepsInv(w, step);
    hide Inv, Next, NoOlder, Outcome;
    GoesBackExactlyWhen(Next(w, step), read.key, Outcome(Next(w, step), read).value.version);
  }

  lemma AnswerIsNewest(w: World, step: Step, read: Read)
    requires Inv(w) && Enabled(w, step) && AnsweredInOrder(w, step, read)
    ensures Outcome(Next(w, step), read).Some?
    ensures NoOlder(Next(w, step), read.key, Outcome(Next(w, step), read).value.version)
  {
    hide At, LogOf, Distinct, NewReads, QueriesGenuine, WritesLogged, ReadsFresh;
    LogGrows(w, step, read.key);
  }

  const NOTHING_READ := World(Cache(map[], map[], 0), map[], [], [], map[], [])

  /**
    Two reads around a first write: the second one's query has run, the first one's, overtaken by
    the write, has not.
   */
  function HalfWay(key: Key, a: Value): World {
    World(Cache(map[], map[key := 1], 2),
          map[key := [Some(a)]],
          [Query({key}, None), Query({key}, Some(map[key := Reading(1, Some(a))]))],
          [Write(key, 1)],
          map[key := 1],
          [Read(key, 0, Awaits(0)), Read(key, 1, Awaits(1))])
  }

  function FirstHalf(key: Key, a: Value): seq<Step> {
    [Reads([key], 0), Writes(key, Some(a)), WriteReturns(0), Reads([key], 0), Executes(1)]
  }

  /** After the second write the overtaken query runs; the other one is kept, and read. */
  function SecondHalf(key: Key, b: Value): seq<Step> {
    [Writes(key, Some(b)), Executes(0), Resolves(1, key, 5_000), Reads([key], 1)]
  }

  lemma LoneKey(w: World, key: Key, now: int)
    ensures Distinct([key]) == [key] && KeySet([key]) == {key}
    ensures NewReads(w, [key], now) == [Read(key, FloorOf(w, key), LookupOf(w.cache, key, now))]
  {
    assert [key][..0] == [] && Distinct([]) == [];
  }

  lemma LoneMiss(c: Cache, key: Key, now: int)
    requires key !in c.entries && key !in c.inFlight
    ensures Missing(c, {key}, now) == {key}
    ensures Start(c, {key}, now) == Cache(c.entries, c.inFlight[key := c.made], c.made + 1)
  {
    assert Stale(c, {key}, now) == {key} == Missing(c, {key}, now);
    assert c.entries - {key} == c.entries;
    assert c.inFlight + (map k | k in Missing(c, {key}, now) :: c.made) == c.inFlight[key := c.made];
  }

  /** A read of one key that nothing is cached or in flight for. */
  lemma LoneRead(w: World, key: Key, now: int)
    requires key !in w.cache.entries && key !in w.cache.inFlight
    ensures Next(w, Reads([key], now))
         == w.(cache := Cache(w.cache.entries, w.cache.inFlight[key := w.cache.made], w.cache.made + 1),
               queries := w.queries + [Query({key}, None)],
               started := w.started + [Read(key, FloorOf(w, key), Awaits(w.cache.made))])
  {
    hide Distinct, KeySet, NewReads, Missing, Start;
    LoneKey(w, key, now);
    LoneMiss(w.cache, key, now);
  }

  /** A read of one key that finds it cached. */
  lemma LoneHit(w: World, key: Key, now: int)
    requires Fresh(w.cache, key, now)
    ensures Next(w, Reads([key], now))
         == w.(started := w.started + [Read(key, FloorOf(w, key), Found(w.cache.entries[key].reading))])
  {
    hide Distinct, KeySet, NewReads;
    LoneKey(w, key, now);
    assert Stale(w.cache, {key}, now) == {} == Missing(w.cache, {key}, now);
    assert Start(w.cache, {key}, now) == w.cache;
  }

  lemma LoneAnswer(w: World, q: nat, key: Key)
    requires Enabled(w, Executes(q)) && w.queries[q] == Query({key}, None)
    ensures Next(w, Executes(q)) == w.(queries := w.queries[q := Query({key}, Some(map[key := Current(w, key)]))])
  {
    assert (map k | k in w.queries[q].keys :: Current(w, k)) == map[key := Current(w, key)];
  }

  lemma RunFrom(w: World, steps: seq<Step>, i: nat)
    requires i < |steps| && Enabled(w, steps[i]) && IsRun(Next(w, steps[i]), steps[i + 1..])
    ensures IsRun(w, steps[i..]) && Run(w, steps[i..]) == Run(Next(w, steps[i]), steps[i + 1..])
  {
    hide Next;
    assert steps[i..][1..] == steps[i + 1..];
  }

  /** The only write of a key returns: what is cached or in flight for it is forgotten. */
  lemma LoneWrite(w: World, key: Key, value: Option<Value>)
    requires w.writes == [] && w.floor == map[] && w.log == map[]
    requires w.cache.entries == map[] && w.cache.inFlight.Keys == {key}
    ensures Next(Next(w, Writes(key, value)), WriteReturns(0))
         == w.(cache := Cache(map[], map[], w.cache.made), log := map[key := [value]],
               writes := [Write(key, 1)], floor := map[key := 1])
  {
    var w1 := Next(w, Writes(key, value));
    assert LogOf(w, key) == [] && LogOf(w, key) + [value] == [value] && w.log[key := [value]] == map[key := [value]];
    assert w1 == w.(log := map[key := [value]], writes := [Write(key, 1)]);
    assert w1.floor[key := 1] == map[key := 1] && w1.cache.entries - {key} == map[];
    assert w.cache.inFlight - {key} == map[];
  }

  lemma FirstHalfRuns(key: Key, a: Value)
    ensures IsRun(NOTHING_READ, FirstHalf(key, a)) && Run(NOTHING_READ, FirstHalf(key, a)) == HalfWay(key, a)
  {
    hide Next;
    var steps := FirstHalf(key, a);
    LoneRead(NOTHING_READ, key, 0);
    var w1 := Next(NOTHING_READ, steps[0]);
    OneWrite(w1, key, Some(a));
    LoneWrite(w1, key, Some(a));
    var w2 := Next(w1, steps[1]);
    var w3 := Next(w2, steps[2]);
    LoneRead(w3, key, 0);
    var w4 := Next(w3, steps[3]);
    LoneAnswer(w4, 1, key);
    assert Next(w4, steps[4]) == HalfWay(key, a);
    RunFrom(w4, steps, 4);
    RunFrom(w3, steps, 3);
    RunFrom(w2, steps, 2);
    RunFrom(w1, steps, 1);
    RunFrom(NOTHING_READ, steps, 0);
    assert steps[0..] == steps;
  }

  lemma OneWrite(w: World, key: Key, value: Option<Value>)
    ensures Next(w, Writes(key, value)) == w.(log := w.log[key := LogOf(w, key) + [value]],
                                             writes := w.writes + [Write(key, |LogOf(w, key)| + 1)])
  {
  }

  lemma SecondHalfRuns(key: Key, a: Value, b: Value)
    ensures IsRun(HalfWay(key, a), SecondHalf(key, b))
    ensures var w := Run(HalfWay(key, a), SecondHalf(key, b));
            && w.started == [Read(key, 0, Awaits(0)), Read(key, 1, Awaits(1)), Read(key, 1, Found(Reading(1, Some(a))))]
            && |w.queries| == 2 && w.queries[0] == Query({key}, Some(map[key := Reading(2, Some(b))]))
  {
    hide Next;
    var steps := SecondHalf(key, b);
    var w0 := HalfWay(key, a);
    OneWrite(w0, key, Some(b));
    var w1 := Next(w0, steps[0]);
    LoneAnswer(w1, 0, key);
    var w2 := Next(w1, steps[1]);
    Kept(w2, key, 1, 5_000);
    var w3 := Next(w2, steps[2]);
    LoneHit(w3, key, 1);
    RunFrom(w3, steps, 3);
    RunFrom(w2, steps, 2);
    RunFrom(w1, steps, 1);
    RunFrom(w0, steps, 0);
    assert steps[0..] == steps;
  }

  lemma Kept(w: World, key: Key, q: nat, expiresAt: int)
    requires Enabled(w, Resolves(q, key, expiresAt)) && key in w.cache.inFlight && w.cache.inFlight[key] == q
    ensures Next(w, Resolves(q, key, expiresAt))
         == w.(cache := w.cache.(entries := w.cache.entries[key := Cached(w.queries[q].result.value[key], expiresAt)],
                                 inFlight := w.cache.inFlight - {key}))
  {
  }

  lemma {:induction false} RunInTwo(w: World, a: seq<Step>, b: seq<Step>)
    requires IsRun(w, a) && IsRun(Run(w, a), b)
    ensures IsRun(w, a + b) && Run(w, a + b) == Run(Run(w, a), b)
    decreases |a|
  {
    hide Next;
    if a == [] {
      assert a + b == b;
    } else {
      assert (a + b)[0] == a[0] && (a + b)[1..] == a[1..] + b;
      RunInTwo(Next(w, a[0]), a[1..], b);
    }
  }

  /**
    Such a run: the first read is answered with the second write, the last one, which started after
    that, with the first.
   */
  lemma OvertakenQueryAnswersFirst(key: Key, a: Value, b: Value)
    ensures var steps := FirstHalf(key, a) + SecondHalf(key, b);
            && Starts(NOTHING_READ) && IsRun(NOTHING_READ, steps)
            && var w := Run(NOTHING_READ, steps);
            && |w.started| == 3 && w.started[0].key == key == w.started[2].key
            && Outcome(w, w.started[0]) == Some(Reading(2, Some(b)))
            && Outcome(w, w.started[2]) == Some(Reading(1, Some(a)))
  {
    FirstHalfRuns(key, a);
    SecondHalfRuns(key, a, b);
    RunInTwo(NOTHING_READ, FirstHalf(key, a), SecondHalf(key, b));
  }
}
