/** The per-minute counts behind the fallback-rate alert, against the plain list of requests. */
module FallbackWindow {

  const MINUTE_MS := 60_000
  const RETENTION_MINUTES := 60

  datatype Bucket = Bucket(total: nat, fallbacks: nat)

  /** One request that reached a backend. */
  datatype Observation = Observation(at: int, fallbackUsed: bool)

  function MinuteOf(at: int): (m: int)
    ensures m * 60_000 <= at < (m + 1) * 60_000
  {
    at / MINUTE_MS
  }

  // ---------------------------------------------------------------- the reference: counting the list

  /** How many requests of these minutes there were, and how many of them used a fallback. */
  ghost function CountIn(log: seq<Observation>, minutes: iset<int>): Bucket {
    if log == [] then Bucket(0, 0)
    else
      var front, last := CountIn(log[..|log| - 1], minutes), log[|log| - 1];
      if MinuteOf(last.at) in minutes
      then Bucket(front.total + 1, front.fallbacks + (if last.fallbackUsed then 1 else 0)) else front
  }

  ghost function Minute(m: int): iset<int> {
    iset{m}
  }

  predicate InWindow(m: int, from: int, to: int) {
    from < m <= to
  }

  /** The minutes after `from`, up to and including `to`. */
  ghost function Between(from: int, to: int): iset<int> {
    iset m: int | InWindow(m, from, to)
  }

  lemma CountSnoc(log: seq<Observation>, o: Observation, minutes: iset<int>)
    ensures CountIn(log + [o], minutes)
         == (var front := CountIn(log, minutes);
             if MinuteOf(o.at) in minutes
             then Bucket(front.total + 1, front.fallbacks + (if o.fallbackUsed then 1 else 0)) else front)
  {
    assert (log + [o])[..|log|] == log;
  }

  lemma {:induction false} CountUnion(log: seq<Observation>, a: iset<int>, b: iset<int>)
    requires a * b == iset{}
    ensures CountIn(log, a + b).total == CountIn(log, a).total + CountIn(log, b).total
    ensures CountIn(log, a + b).fallbacks == CountIn(log, a).fallbacks + CountIn(log, b).fallbacks
  {
    if log != [] {
      CountUnion(log[..|log| - 1], a, b);
      var m := MinuteOf(log[|log| - 1].at);
      assert m in a * b <==> m in a && m in b;
    }
  }

  /** Sets of minutes that hold the same requests count the same. */
  lemma {:induction false} CountSame(log: seq<Observation>, a: iset<int>, b: iset<int>)
    requires forall i :: 0 <= i < |log| ==> (MinuteOf(log[i].at) in a <==> MinuteOf(log[i].at) in b)
    ensures CountIn(log, a) == CountIn(log, b)
  {
    if log != [] {
      CountSame(log[..|log| - 1], a, b);
    }
  }

  lemma {:induction false} CountPositive(log: seq<Observation>, minutes: iset<int>)
    ensures CountIn(log, minutes).fallbacks <= CountIn(log, minutes).total
    ensures CountIn(log, minutes).total == 0 <==> forall i :: 0 <= i < |log| ==> MinuteOf(log[i].at) !in minutes
  {
    if log != [] {
      CountPositive(log[..|log| - 1], minutes);
      assert log == log[..|log| - 1] + [log[|log| - 1]];
    }
  }

  // ---------------------------------------------------------------- what is still counted

  /** Recording a request of this minute keeps the counts of that one. */
  predicate Keeps(minute: int, m: int) {
    m > minute - RETENTION_MINUTES
  }

  function Recent(log: seq<Observation>, minute: int): seq<Observation> {
    if log == [] then []
    else
      var front, last := Recent(log[..|log| - 1], minute), log[|log| - 1];
      if Keeps(minute, MinuteOf(last.at)) then front + [last] else front
  }

  /** The requests still counted: recording one forgets those of minutes at least sixty before its own. */
  function Surviving(log: seq<Observation>): seq<Observation> {
    if log == [] then []
    else Recent(Surviving(log[..|log| - 1]), MinuteOf(log[|log| - 1].at)) + [log[|log| - 1]]
  }

  /** No later request made this one forgotten. */
  ghost predicate Survives(log: seq<Observation>, i: nat)
    requires i < |log|
  {
    forall j :: i < j < |log| ==> Keeps(MinuteOf(log[j].at), MinuteOf(log[i].at))
  }

  ghost function KeptMinutes(minute: int): iset<int> {
    iset m: int | Keeps(minute, m)
  }

  lemma {:induction false} CountRecent(log: seq<Observation>, minute: int, minutes: iset<int>)
    ensures CountIn(Recent(log, minute), minutes) == CountIn(log, minutes * KeptMinutes(minute))
  {
    if log != [] {
      var front, last := log[..|log| - 1], log[|log| - 1];
      CountRecent(front, minute, minutes);
      CountSnoc(Recent(front, minute), last, minutes);
    }
  }

  lemma {:induction false} RecentIsOld(log: seq<Observation>, minute: int)
    ensures forall o :: o in Recent(log, minute) ==> o in log && Keeps(minute, MinuteOf(o.at))
  {
    if log != [] {
      RecentIsOld(log[..|log| - 1], minute);
    }
  }

  lemma SurvivesSnoc(front: seq<Observation>, o: Observation, i: nat)
    requires i < |front|
    ensures Survives(front + [o], i) <==> Survives(front, i) && Keeps(MinuteOf(o.at), MinuteOf(front[i].at))
  {
    var log := front + [o];
    assert log[|front|] == o && forall j :: 0 <= j < |front| ==> log[j] == front[j];
  }

  /** Every request of these minutes is still counted. */
  ghost predicate AllSurvive(log: seq<Observation>, minutes: iset<int>) {
    forall i :: 0 <= i < |log| && MinuteOf(log[i].at) in minutes ==> Survives(log, i)
  }

  lemma AllSurviveSnoc(front: seq<Observation>, o: Observation, minutes: iset<int>)
    ensures var kept := KeptMinutes(MinuteOf(o.at));
            AllSurvive(front + [o], minutes) <==>
              AllSurvive(front, minutes * kept)
              && forall i :: 0 <= i < |front| ==> MinuteOf(front[i].at) !in minutes - kept
  {
    hide Survives;
    var log, kept := front + [o], KeptMinutes(MinuteOf(o.at));
    assert Survives(log, |front|) by {
      LastSurvives(front, o);
    }
    assert forall i :: 0 <= i < |front| ==> log[i] == front[i];
    forall i | 0 <= i < |front|
      ensures Survives(log, i) <==> Survives(front, i) && MinuteOf(front[i].at) in kept {
      SurvivesSnoc(front, o, i);
    }
  }

  lemma LastSurvives(front: seq<Observation>, o: Observation)
    ensures Survives(front + [o], |front|)
  {
  }

  /**
    Main result, whatever the clock does: what is counted of any minutes is at
    most what was recorded of them, and all of it if and only if no request of
    those minutes was forgotten.
   */
  lemma {:induction false} SurvivingCounts(log: seq<Observation>, minutes: iset<int>)
    ensures CountIn(Surviving(log), minutes).total <= CountIn(log, minutes).total
    ensures CountIn(Surviving(log), minutes).fallbacks <= CountIn(log, minutes).fallbacks
    ensures CountIn(Surviving(log), minutes) == CountIn(log, minutes) <==> AllSurvive(log, minutes)
  {
    hide AllSurvive, CountIn, Recent, KeptMinutes;
    if log != [] {
      var front, o := log[..|log| - 1], log[|log| - 1];
      var kept := KeptMinutes(MinuteOf(o.at));
      assert log == front + [o];
      SurvivingCounts(front, minutes * kept);
      CountRecent(Surviving(front), MinuteOf(o.at), minutes);
      CountSnoc(Recent(Surviving(front), MinuteOf(o.at)), o, minutes);
      CountSnoc(front, o, minutes);
      CountSplit(front, minutes, kept);
      AllSurviveSnoc(front, o, minutes);
    } else {
      NothingForgotten(minutes);
    }
  }

  /** Some of the minutes hold all the requests exactly when the others hold none. */
  lemma CountSplit(log: seq<Observation>, minutes: iset<int>, kept: iset<int>)
    ensures var all, some, others := CountIn(log, minutes), CountIn(log, minutes * kept), CountIn(log, minutes - kept);
            && all.total == some.total + others.total && all.fallbacks == some.fallbacks + others.fallbacks
            && others.fallbacks <= others.total
            && (others.total == 0 <==> forall i :: 0 <= i < |log| ==> MinuteOf(log[i].at) !in minutes - kept)
  {
    hide CountIn;
    CountUnion(log, minutes * kept, minutes - kept);
    assert minutes * kept + (minutes - kept) == minutes;
    CountPositive(log, minutes - kept);
  }

  lemma NothingForgotten(minutes: iset<int>)
    ensures AllSurvive([], minutes)
  {
  }

  // ---------------------------------------------------------------- the service

  /** What is kept: exact counts of the requests still counted, for every minute that has one. */
  ghost predicate Kept(buckets: map<int, Bucket>, log: seq<Observation>) {
    && (forall m :: m in buckets ==> buckets[m] == CountIn(log, Minute(m)))
    && (forall i :: 0 <= i < |log| ==> MinuteOf(log[i].at) in buckets)
  }

  function Bump(buckets: map<int, Bucket>, o: Observation): Bucket {
    var bucket := if MinuteOf(o.at) in buckets then buckets[MinuteOf(o.at)] else Bucket(0, 0);
    Bucket(bucket.total + 1, bucket.fallbacks + (if o.fallbackUsed then 1 else 0))
  }

  lemma KeptAfter(buckets: map<int, Bucket>, log: seq<Observation>, o: Observation, after: map<int, Bucket>)
    requires Kept(buckets, log)
    requires var bumped := buckets[MinuteOf(o.at) := Bump(buckets, o)];
             after == map m | m in bumped && m > MinuteOf(o.at) - RETENTION_MINUTES :: bumped[m]
    ensures Kept(after, Recent(log, MinuteOf(o.at)) + [o])
  {
    var minute := MinuteOf(o.at);
    var recent := Recent(log, minute);
    forall m | m in after ensures after[m] == CountIn(recent + [o], Minute(m)) {
      CountSnoc(recent, o, Minute(m));
      CountRecent(log, minute, Minute(m));
      assert Minute(m) * KeptMinutes(minute) == Minute(m);
      if m == minute && minute !in buckets {
        CountPositive(log, Minute(m));
      }
    }
    RecentIsOld(log, minute);
    forall i | 0 <= i < |recent + [o]| ensures MinuteOf((recent + [o])[i].at) in after {
      if i < |recent| {
        assert recent[i] in recent && recent[i] in log;
      }
    }
  }

  /** Requests in the order of their times: the clock does not run backwards. */
  predicate InOrder(log: seq<Observation>) {
    forall i, j :: 0 <= i < j < |log| ==> log[i].at <= log[j].at
  }

  /** Then a request is forgotten exactly when the latest one is at least sixty minutes on. */
  lemma OrderedForgets(log: seq<Observation>, i: nat)
    requires InOrder(log) && i < |log|
    ensures Survives(log, i) <==> Keeps(MinuteOf(log[|log| - 1].at), MinuteOf(log[i].at))
  {
    forall j | i < j < |log| ensures MinuteOf(log[j].at) <= MinuteOf(log[|log| - 1].at) {
      assert j < |log| - 1 ==> log[j].at <= log[|log| - 1].at;
    }
  }

  /**
    Main result: the reported window is exact if and only if it reaches no
    forgotten request. While the clock does not run backwards that is so for
    every window of at most sixty minutes, and for a longer one if and only if
    it reaches no request at least sixty minutes before the latest.
   */
  lemma WindowIsExact(log: seq<Observation>, now: int, minutes: int)
    ensures var window := Between(MinuteOf(now) - minutes, MinuteOf(now));
            var reported, actual := CountIn(Surviving(log), window), CountIn(log, window);
            && reported.total <= actual.total && reported.fallbacks <= actual.fallbacks
            && (reported == actual <==> AllSurvive(log, window))
            && (InOrder(log) ==>
                  (reported == actual <==>
                     forall i :: 0 <= i < |log| && MinuteOf(log[i].at) in window ==>
                       MinuteOf(log[|log| - 1].at) - MinuteOf(log[i].at) < 60))
            && (minutes <= 60 && InOrder(log) && (log != [] ==> log[|log| - 1].at <= now) ==>
                reported == actual)
  {
    SurvivingCounts(log, Between(MinuteOf(now) - minutes, MinuteOf(now)));
    if InOrder(log) {
      forall i | 0 <= i < |log|
        ensures Survives(log, i) <==> Keeps(MinuteOf(log[|log| - 1].at), MinuteOf(log[i].at)) {
        OrderedForgets(log, i);
      }
    }
  }

  /** Asked for sixty-one minutes, it misses the request that the one an hour later made it forget. */
  lemma LongerWindowUndercounts()
    ensures var log := [Observation(0, false), Observation(60 * MINUTE_MS, false)];
            var window := Between(MinuteOf(60 * MINUTE_MS) - 61, MinuteOf(60 * MINUTE_MS));
            CountIn(Surviving(log), window).total == 1 && CountIn(log, window).total == 2
  {
    hide CountIn, Surviving, Recent;
    var a, b := Observation(0, false), Observation(60 * MINUTE_MS, false);
    assert MinuteOf(a.at) == 0 && MinuteOf(b.at) == 60;
    var window := Between(-1, 60);
    CountOne(a, window);
    CountOne(b, window);
    CountSnoc([a], b, window);
    assert [a] + [b] == [a, b];
    SecondSurvives(a, b);
  }

  lemma CountOne(o: Observation, minutes: iset<int>)
    requires MinuteOf(o.at) in minutes
    ensures CountIn([o], minutes).total == 1
  {
    assert [] + [o] == [o];
    CountSnoc([], o, minutes);
  }

  lemma SecondSurvives(a: Observation, b: Observation)
    requires !Keeps(MinuteOf(b.at), MinuteOf(a.at))
    ensures Surviving([a, b]) == [b]
  {
    hide MinuteOf, Keeps;
    assert [a, b][..1] == [a] && [a][..0] == [];
    assert Surviving([a]) == [a];
    assert Recent([a], MinuteOf(b.at)) == [];
  }

  class MetricsService {
    var minuteBuckets: map<int, Bucket>
    /** Every request ever recorded. */
    ghost var log: seq<Observation>

    ghost predicate Valid()
      reads this
    {
      Kept(minuteBuckets, Surviving(log))
    }

    constructor ()
      ensures Valid() && log == []
    {
      minuteBuckets, log := map[], [];
    }

    method CountInWindow(fallbackUsed: bool, now: int)
      requires Valid()
      modifies this
      ensures Valid() && log == old(log) + [Observation(now, fallbackUsed)]
    {
      var minute := MinuteOf(now);
      var bucket := if minute in minuteBuckets then minuteBuckets[minute] else Bucket(0, 0);
      bucket := bucket.(total := bucket.total + 1);
      if fallbackUsed {
        bucket := bucket.(fallbacks := bucket.fallbacks + 1);
      }
      minuteBuckets := minuteBuckets[minute := bucket];
      Prune(minute);
      ghost var o := Observation(now, fallbackUsed);
      KeptAfter(old(minuteBuckets), Surviving(log), o, minuteBuckets);
      assert (log + [o])[..|log|] == log;
      log := log + [o];
    }

    method Prune(minute: int)
      modifies this`minuteBuckets
      ensures minuteBuckets
           == map m | m in old(minuteBuckets) && m > minute - RETENTION_MINUTES :: old(minuteBuckets)[m]
    {
      var left := minuteBuckets.Keys;
      while left != {}
        invariant left <= old(minuteBuckets).Keys
        invariant minuteBuckets
               == map m | m in old(minuteBuckets) && (m in left || m > minute - RETENTION_MINUTES)
                    :: old(minuteBuckets)[m]
        decreases left
      {
        ghost var some := SomeElement(left);
        var key :| key in left;
        left := left - {key};
        if key <= minute - RETENTION_MINUTES {
          minuteBuckets := minuteBuckets - {key};
        }
      }
    }

    /**
      The requests of the last `minutes` minutes that are still counted; `WindowIsExact` says when
      that is all of them.
     */
    method RecentFallbackStats(minutes: int, now: int) returns (stats: Bucket)
      requires Valid()
      ensures stats == CountIn(Surviving(log), Between(MinuteOf(now) - minutes, MinuteOf(now)))
    {
      var newest := MinuteOf(now);
      var total: nat, fallbacks: nat := 0, 0;
      var left := minuteBuckets.Keys;
      ghost var kept := Surviving(log);
      ghost var seen: iset<int> := iset{};
      CountPositive(kept, seen);
      while left != {}
        invariant left <= minuteBuckets.Keys
        invariant forall m :: m in seen <==> m in minuteBuckets && m !in left && newest - minutes < m <= newest
        invariant CountIn(kept, seen) == Bucket(total, fallbacks)
        decreases left
      {
        ghost var some := SomeElement(left);
        var minute :| minute in left;
        var bucket := minuteBuckets[minute];
        left := left - {minute};
        if minute > newest - minutes && minute <= newest {
          CountUnion(kept, seen, Minute(minute));
          seen := seen + Minute(minute);
          total, fallbacks := total + bucket.total, fallbacks + bucket.fallbacks;
        }
      }
      CountSame(kept, seen, Between(newest - minutes, newest));
      return Bucket(total, fallbacks);
    }
  }

  lemma SomeElement<T>(s: set<T>) returns (x: T)
    requires s != {}
    ensures x in s
  {
    x :| x in s;
  }
}
