/** Which stored responses are served, and which are dropped first: the response cache over whole runs. */
module ResponseCacheUse {
  import opened Common
  import opened ResponseCacheSpec

  function StartOf(ttlMs: int): World {
    World(Cache([], 0, ttlMs), map[])
  }

  lemma {:induction false} RunSnoc(w: World, maxBytes: int, ops: seq<Op>, last: Op)
    ensures Run(w, maxBytes, ops + [last]) == Next(Run(w, maxBytes, ops), maxBytes, last)
    decreases |ops|
  {
    hide Next;
    if ops == [] {
      assert [] + [last] == [last] && [last][1..] == [];
    } else {
      assert (ops + [last])[0] == ops[0] && (ops + [last])[1..] == ops[1..] + [last];
      RunSnoc(Next(w, maxBytes, ops[0]), maxBytes, ops[1..], last);
    }
  }

  // ---------------------------------------------------------------- the lifetime in force

  function LatestTtl(ttlMs: int, ops: seq<Op>): int {
    if ops == [] then ttlMs
    else if ops[|ops| - 1].SetTtlOp? then ops[|ops| - 1].ttlMs
    else LatestTtl(ttlMs, ops[..|ops| - 1])
  }

  /** The lifetime is the one last set, whatever is done in between. */
  lemma {:induction false} LifetimeIsLatest(ttlMs: int, maxBytes: int, ops: seq<Op>)
    requires maxBytes >= 0
    ensures Run(StartOf(ttlMs), maxBytes, ops).cache.ttlMs == LatestTtl(ttlMs, ops)
  {
    hide Run;
    if ops == [] {
      assert Run(StartOf(ttlMs), maxBytes, []) == StartOf(ttlMs) by { Unrun(StartOf(ttlMs), maxBytes); }
    } else {
      var front, last := ops[..|ops| - 1], ops[|ops| - 1];
      assert ops == front + [last];
      LifetimeIsLatest(ttlMs, maxBytes, front);
      RunSnoc(StartOf(ttlMs), maxBytes, front, last);
      NextTtl(Run(StartOf(ttlMs), maxBytes, front), maxBytes, last);
    }
  }

  lemma Unrun(w: World, maxBytes: int)
    ensures Run(w, maxBytes, []) == w
  {
  }

  lemma NextTtl(w: World, maxBytes: int, op: Op)
    ensures Next(w, maxBytes, op).cache.ttlMs == if op.SetTtlOp? then op.ttlMs else w.cache.ttlMs
  {
    if op.SetOp? {
      EvictKeepsTtl(w.cache, maxBytes, op.key, op.entry);
    }
  }

  lemma EvictKeepsTtl(c: Cache, maxBytes: int, key: Key, entry: Entry)
    ensures Set(c, maxBytes, key, entry).ttlMs == c.ttlMs
  {
    hide Find, Without;
    if Accepts(c, maxBytes, |entry.body|) {
      var previous := Find(c.entries, key);
      var d := if previous.Some? then Remove(c, key, previous.value) else c;
      TtlSurvives(d.(entries := d.entries + [(key, entry)], totalBytes := d.totalBytes + |entry.body|), maxBytes);
    }
  }

  lemma {:induction false} TtlSurvives(c: Cache, maxBytes: int)
    ensures Evict(c, maxBytes).ttlMs == c.ttlMs
    decreases |c.entries|
  {
    if c.totalBytes > maxBytes && c.entries != [] {
      TtlSurvives(c.(entries := c.entries[1..], totalBytes := c.totalBytes - |c.entries[0].1.body|), maxBytes);
    }
  }

  // ---------------------------------------------------------------- least recently used

  /** The response under the key is used: stored anew, or served. */
  predicate Uses(w: World, maxBytes: int, op: Op, key: Key) {
    match op
    case SetOp(k, entry) => k == key && Accepts(w.cache, maxBytes, |entry.body|)
    case GetOp(k, maxAgeMs, now) => k == key && Get(w.cache, k, maxAgeMs, now).1.Some?
    case SetTtlOp(_) => false
  }

  /** The position of the last operation that used the key. */
  function LastUse(w: World, maxBytes: int, ops: seq<Op>, key: Key): nat {
    if ops == [] then 0
    else
      var front, last := ops[..|ops| - 1], ops[|ops| - 1];
      if Uses(Run(w, maxBytes, front), maxBytes, last, key) then |ops| else LastUse(w, maxBytes, front, key)
  }

  lemma LastUseSnoc(w: World, maxBytes: int, ops: seq<Op>, last: Op, key: Key)
    ensures LastUse(w, maxBytes, ops + [last], key)
         == if Uses(Run(w, maxBytes, ops), maxBytes, last, key) then |ops| + 1 else LastUse(w, maxBytes, ops, key)
  {
    assert (ops + [last])[..|ops|] == ops;
  }

  lemma {:induction false} LastUseBounded(w: World, maxBytes: int, ops: seq<Op>, key: Key)
    ensures LastUse(w, maxBytes, ops, key) <= |ops|
  {
    if ops != [] {
      LastUseBounded(w, maxBytes, ops[..|ops| - 1], key);
    }
  }

  predicate Ascending(entries: seq<(Key, Entry)>, use: Key -> nat) {
    forall i, j :: 0 <= i < j < |entries| ==> use(entries[i].0) < use(entries[j].0)
  }

  lemma {:induction false} WithoutMembers(entries: seq<(Key, Entry)>, key: Key)
    ensures forall e :: e in Without(entries, key) ==> e in entries && e.0 != key
  {
    if entries != [] {
      WithoutMembers(entries[1..], key);
    }
  }

  lemma {:induction false} WithoutAscends(entries: seq<(Key, Entry)>, key: Key, use: Key -> nat)
    requires Ascending(entries, use)
    ensures Ascending(Without(entries, key), use)
  {
    if entries != [] {
      var head, rest := entries[0], entries[1..];
      TailAscends(entries, use);
      WithoutAscends(rest, key, use);
      WithoutMembers(rest, key);
      HeadAscends(head, Without(rest, key), use);
    }
  }

  lemma TailAscends(entries: seq<(Key, Entry)>, use: Key -> nat)
    requires Ascending(entries, use) && entries != []
    ensures Ascending(entries[1..], use)
    ensures forall e :: e in entries[1..] ==> use(entries[0].0) < use(e.0)
  {
  }

  lemma HeadAscends(head: (Key, Entry), rest: seq<(Key, Entry)>, use: Key -> nat)
    requires Ascending(rest, use) && forall e :: e in rest ==> use(head.0) < use(e.0)
    ensures Ascending([head] + rest, use)
  {
  }

  /** Entries that were not used stay in order, and the one that was comes last. */
  lemma UsedComesLast(entries: seq<(Key, Entry)>, key: Key, entry: Entry, use: Key -> nat, use1: Key -> nat)
    requires Ascending(entries, use)
    requires forall k :: k != key ==> use1(k) == use(k)
    requires forall k :: use(k) < use1(key)
    ensures Ascending(Without(entries, key) + [(key, entry)], use1)
  {
    hide Without;
    WithoutAscends(entries, key, use);
    WithoutMembers(entries, key);
    var rest := Without(entries, key);
    forall i | 0 <= i < |rest| ensures use1(rest[i].0) == use(rest[i].0) {
      assert rest[i] in rest;
    }
  }

  lemma SuffixAscends(entries: seq<(Key, Entry)>, k: nat, use: Key -> nat)
    requires Ascending(entries, use) && k <= |entries|
    ensures Ascending(entries[k..], use)
  {
  }

  /**
    Main result 1, at every point of every run: the stored responses are in the
    order of their last use. So what a new response pushes out, a prefix of that
    order, is what was used least recently, and no more of it than has to go.
   */
  lemma {:induction false} LeastRecentlyUsedFirst(ttlMs: int, maxBytes: int, ops: seq<Op>)
    requires maxBytes >= 0
    ensures Ascending(Run(StartOf(ttlMs), maxBytes, ops).cache.entries,
                      key => LastUse(StartOf(ttlMs), maxBytes, ops, key))
  {
    hide Run, LastUse;
    if ops == [] {
      Unrun(StartOf(ttlMs), maxBytes);
    } else {
      var front, last := ops[..|ops| - 1], ops[|ops| - 1];
      assert ops == front + [last];
      LeastRecentlyUsedFirst(ttlMs, maxBytes, front);
      var start, w := StartOf(ttlMs), Run(StartOf(ttlMs), maxBytes, front);
      RunSnoc(start, maxBytes, front, last);
      RunStaysFaithful(start, maxBytes, front) by {
        assert Faithful(start, maxBytes);
      }
      forall key ensures LastUse(start, maxBytes, ops, key)
           == if Uses(w, maxBytes, last, key) then |front| + 1 else LastUse(start, maxBytes, front, key) {
        LastUseSnoc(start, maxBytes, front, last, key);
      }
      forall key ensures LastUse(start, maxBytes, front, key) <= |front| {
        LastUseBounded(start, maxBytes, front, key);
      }
      StepAscends(w, maxBytes, last,
                  key => LastUse(start, maxBytes, front, key), key => LastUse(start, maxBytes, ops, key), |front| + 1);
    }
  }

  lemma StepAscends(w: World, maxBytes: int, op: Op, use: Key -> nat, use1: Key -> nat, now: nat)
    requires Faithful(w, maxBytes) && maxBytes >= 0 && Ascending(w.cache.entries, use)
    requires forall key :: use1(key) == if Uses(w, maxBytes, op, key) then now else use(key)
    requires forall key :: use(key) < now
    ensures Ascending(Next(w, maxBytes, op).cache.entries, use1)
  {
    hide Without, Find, Evict, Bytes, Valid;
    var c := w.cache;
    match op
    case SetTtlOp(_) =>
    case GetOp(key, _, _) =>
      if Find(c.entries, key).Some? {
        WithoutAscends(c.entries, key, use);
        UsedComesLast(c.entries, key, Find(c.entries, key).value, use, k => if k == key then now else use(k));
      }
    case SetOp(key, entry) =>
      if Accepts(c, maxBytes, |entry.body|) {
        var k := SetKeepsLongestSuffix(c, maxBytes, key, entry);
        UsedComesLast(c.entries, key, entry, use, use1);
        SuffixAscends(Candidate(c, key, entry), k, use1);
      }
  }

  // ---------------------------------------------------------------- what is served

  /** The last response under the key that was not too large to keep. */
  function LastStored(ops: seq<Op>, key: Key): Option<Entry> {
    if ops == [] then None
    else
      var last := ops[|ops| - 1];
      if last.SetOp? && last.key == key && |last.entry.body| <= 2_097_152 then Some(last.entry)
      else LastStored(ops[..|ops| - 1], key)
  }

  /** The size of everything that was to be stored and not too large to keep. */
  function StoredBytes(ops: seq<Op>): nat {
    if ops == [] then 0
    else
      var last := ops[|ops| - 1];
      StoredBytes(ops[..|ops| - 1])
        + (if last.SetOp? && |last.entry.body| <= 2_097_152 then |last.entry.body| else 0)
  }

  /** The lifetime was never shorter than this, and no lookup came from a clock ahead of this time. */
  predicate Steady(ops: seq<Op>, ttlMs: int, now: int) {
    forall i :: 0 <= i < |ops| ==>
      (ops[i].SetTtlOp? ==> ops[i].ttlMs >= ttlMs) && (ops[i].GetOp? ==> ops[i].now <= now)
  }

  predicate Alive(entry: Option<Entry>, ttlMs: int, now: int) {
    entry.Some? && now - entry.value.storedAt < ttlMs
  }

  /** The cache still holds every last stored response that is alive, and nothing but last stored ones. */
  ghost predicate HoldsWhatLives(w: World, ops: seq<Op>, ttlMs: int, maxBytes: int, now: int) {
    && Faithful(w, maxBytes) && w.cache.ttlMs >= ttlMs && w.cache.totalBytes <= StoredBytes(ops)
    && forall key ::
         var stored := Find(w.cache.entries, key);
         (stored.Some? ==> stored == LastStored(ops, key))
         && (Alive(LastStored(ops, key), ttlMs, now) ==> stored == LastStored(ops, key))
  }

  lemma StoredSnoc(ops: seq<Op>, last: Op, key: Key)
    ensures LastStored(ops + [last], key)
         == if last.SetOp? && last.key == key && |last.entry.body| <= 2_097_152 then Some(last.entry)
            else LastStored(ops, key)
    ensures StoredBytes(ops + [last])
         == StoredBytes(ops) + (if last.SetOp? && |last.entry.body| <= 2_097_152 then |last.entry.body| else 0)
  {
    assert (ops + [last])[..|ops|] == ops;
  }

  lemma GetKeepsLiving(w: World, ops: seq<Op>, ttlMs: int, maxBytes: int, now: int, op: Op)
    requires HoldsWhatLives(w, ops, ttlMs, maxBytes, now) && op.GetOp? && op.now <= now && maxBytes >= 0
    ensures HoldsWhatLives(Next(w, maxBytes, op), ops + [op], ttlMs, maxBytes, now)
  {
    hide Without, Find, Bytes, LastStored, StoredBytes, Valid;
    var w1 := Next(w, maxBytes, op);
    NextStaysFaithful(w, maxBytes, op);
    StoredSnoc(ops, op, op.key);
    GetFinds(w.cache, maxBytes, op.key, op.maxAgeMs, op.now);
    forall key ensures LastStored(ops + [op], key) == LastStored(ops, key) {
      StoredSnoc(ops, op, key);
    }
  }

  /** A lookup forgets its own key's response if it is expired, and nothing else. */
  lemma GetFinds(c: Cache, maxBytes: int, key: Key, maxAgeMs: Option<int>, now: int)
    requires Valid(c, maxBytes)
    ensures var c1 := Get(c, key, maxAgeMs, now).0;
            && c1.totalBytes <= c.totalBytes && c1.ttlMs == c.ttlMs
            && forall k :: Find(c1.entries, k)
                 == if k == key && Find(c.entries, key).Some? && now - Find(c.entries, key).value.storedAt >= c.ttlMs
                    then None else Find(c.entries, k)
  {
    hide Without, Bytes;
    WithoutProperties(c.entries, key);
    if Find(c.entries, key).Some? {
      forall k ensures Find(Without(c.entries, key) + [(key, Find(c.entries, key).value)], k) == Find(c.entries, k) {
        FindAppend(Without(c.entries, key), key, Find(c.entries, key).value, k);
      }
    }
  }

  lemma LongerLifetimeKeepsLiving(w: World, ops: seq<Op>, ttlMs: int, maxBytes: int, now: int, op: Op)
    requires HoldsWhatLives(w, ops, ttlMs, maxBytes, now) && op.SetTtlOp? && op.ttlMs >= ttlMs > 0 && maxBytes >= 0
    ensures HoldsWhatLives(Next(w, maxBytes, op), ops + [op], ttlMs, maxBytes, now)
  {
    hide Find, Bytes, LastStored, StoredBytes, Valid;
    NextStaysFaithful(w, maxBytes, op);
    StoredSnoc(ops, op, "");
    forall key ensures LastStored(ops + [op], key) == LastStored(ops, key) {
      StoredSnoc(ops, op, key);
    }
  }

  lemma SetKeepsLiving(w: World, ops: seq<Op>, ttlMs: int, maxBytes: int, now: int, op: Op)
    requires HoldsWhatLives(w, ops, ttlMs, maxBytes, now) && op.SetOp? && ttlMs > 0 && maxBytes > 0
    requires StoredBytes(ops + [op]) <= maxBytes
    ensures HoldsWhatLives(Next(w, maxBytes, op), ops + [op], ttlMs, maxBytes, now)
  {
    hide Without, Find, Bytes, LastStored, StoredBytes, Valid, Evict, Set;
    var w1 := Next(w, maxBytes, op);
    NextStaysFaithful(w, maxBytes, op);
    forall key ensures LastStored(ops + [op], key)
                 == if op.key == key && |op.entry.body| <= 2_097_152 then Some(op.entry) else LastStored(ops, key) {
      StoredSnoc(ops, op, key);
    }
    StoredSnoc(ops, op, op.key);
    if |op.entry.body| <= 2_097_152 {
      SetFinds(w.cache, maxBytes, op.key, op.entry);
    } else {
      SetRefuses(w.cache, maxBytes, op.key, op.entry);
    }
  }

  lemma SetRefuses(c: Cache, maxBytes: int, key: Key, entry: Entry)
    requires |entry.body| > 2_097_152
    ensures Set(c, maxBytes, key, entry) == c
  {
  }

  /** While everything fits, storing a response replaces its key's and touches no other. */
  lemma SetFinds(c: Cache, maxBytes: int, key: Key, entry: Entry)
    requires Valid(c, maxBytes) && c.ttlMs > 0 && maxBytes > 0
    requires |entry.body| <= 2_097_152 && c.totalBytes + |entry.body| <= maxBytes
    ensures var c1 := Set(c, maxBytes, key, entry);
            && c1.totalBytes <= c.totalBytes + |entry.body| && c1.ttlMs == c.ttlMs
            && forall k :: Find(c1.entries, k) == if k == key then Some(entry) else Find(c.entries, k)
  {
    hide Without, Evict;
    WithoutProperties(c.entries, key);
    var order := Candidate(c, key, entry);
    BytesAppend(Without(c.entries, key), [(key, entry)]);
    assert [(key, entry)][1..] == [];
    assert Bytes(order) <= c.totalBytes + |entry.body|;
    var k := SetKeepsLongestSuffix(c, maxBytes, key, entry);
    assert order[0..] == order;
    assert k == 0;
    forall other ensures Find(order, other) == if other == key then Some(entry) else Find(c.entries, other) {
      FindAppend(Without(c.entries, key), key, entry, other);
    }
  }

  lemma {:induction false} RunHoldsWhatLives(first: int, ttlMs: int, maxBytes: int, ops: seq<Op>, now: int)
    requires first >= ttlMs > 0 && maxBytes > 0 && Steady(ops, ttlMs, now) && StoredBytes(ops) <= maxBytes
    ensures HoldsWhatLives(Run(StartOf(first), maxBytes, ops), ops, ttlMs, maxBytes, now)
  {
    hide Run, HoldsWhatLives, StoredBytes;
    if ops == [] {
      Unrun(StartOf(first), maxBytes);
      NothingStored(first, ttlMs, maxBytes, now);
    } else {
      var front, last := ops[..|ops| - 1], ops[|ops| - 1];
      assert ops == front + [last];
      StoredSnoc(front, last, "");
      RunHoldsWhatLives(first, ttlMs, maxBytes, front, now);
      RunSnoc(StartOf(first), maxBytes, front, last);
      var w := Run(StartOf(first), maxBytes, front);
      if last.GetOp? {
        GetKeepsLiving(w, front, ttlMs, maxBytes, now, last);
      } else if last.SetTtlOp? {
        LongerLifetimeKeepsLiving(w, front, ttlMs, maxBytes, now, last);
      } else {
        SetKeepsLiving(w, front, ttlMs, maxBytes, now, last);
      }
    }
  }

  lemma NothingStored(first: int, ttlMs: int, maxBytes: int, now: int)
    requires maxBytes > 0 && first >= ttlMs
    ensures HoldsWhatLives(StartOf(first), [], ttlMs, maxBytes, now)
  {
  }

  /**
    Main result 2: while all that is stored fits the budget, and no lifetime was
    shorter than the one in force, a lookup is answered exactly when the last
    response stored under its key is younger than that lifetime and no older than
    the request accepts, and with that response.
   */
  lemma ServedExactlyWhenFresh(first: int, maxBytes: int, ops: seq<Op>, key: Key, maxAgeMs: Option<int>, now: int)
    requires first >= LatestTtl(first, ops) > 0 && maxBytes > 0
    requires Steady(ops, LatestTtl(first, ops), now) && StoredBytes(ops) <= maxBytes
    ensures var stored := LastStored(ops, key);
            Get(Run(StartOf(first), maxBytes, ops).cache, key, maxAgeMs, now).1
              == if stored.Some? && now - stored.value.storedAt < LatestTtl(first, ops)
                    && (maxAgeMs.Some? ==> now - stored.value.storedAt <= maxAgeMs.value)
                 then stored else None
  {
    hide Run, LastStored, StoredBytes, Valid, LatestTtl;
    LifetimeIsLatest(first, maxBytes, ops);
    RunHoldsWhatLives(first, LatestTtl(first, ops), maxBytes, ops, now);
  }

  /** With no lifetime or no budget nothing is kept, whatever was before. */
  lemma {:induction false} SwitchedOffKeepsNothing(first: int, maxBytes: int, ops: seq<Op>)
    requires maxBytes >= 0 && (LatestTtl(first, ops) <= 0 || maxBytes == 0)
    ensures Run(StartOf(first), maxBytes, ops).cache.entries == []
  {
    hide Run;
    LifetimeIsLatest(first, maxBytes, ops);
    RunStaysFaithful(StartOf(first), maxBytes, ops) by {
      assert Faithful(StartOf(first), maxBytes);
    }
    if maxBytes == 0 {
      NoBudgetKeepsNothing(first, ops);
    }
  }

  lemma {:induction false} NoBudgetKeepsNothing(first: int, ops: seq<Op>)
    ensures Run(StartOf(first), 0, ops).cache.entries == []
  {
    hide Run;
    if ops == [] {
      Unrun(StartOf(first), 0);
    } else {
      var front, last := ops[..|ops| - 1], ops[|ops| - 1];
      assert ops == front + [last];
      NoBudgetKeepsNothing(first, front);
      RunSnoc(StartOf(first), 0, front, last);
    }
  }
}
