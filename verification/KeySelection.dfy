/**
  The rule that picks a Cloud key: the soonest renewal wins, a key without a
  known one loses to all others, then the larger balance, then chance. The
  source states it three times: in the Lua reserve script, in the local fallback
  and on the admin page. Each scan is proved to compute the same declaratively
  defined tie set.
 */
module KeySelection {
  import opened Common

  const MS_PER_DAY: int := 86400000

  /** A day of None is an unknown renewal and sorts last. */
  datatype Rank = Rank(day: Option<int>, credits: int)

  predicate EarlierDay(a: Option<int>, b: Option<int>) {
    a.Some? && (b.None? || a.value < b.value)
  }

  predicate Better(a: Rank, b: Rank) {
    EarlierDay(a.day, b.day) || (a.day == b.day && a.credits > b.credits)
  }

  lemma BetterOrders(a: Rank, b: Rank, c: Rank)
    ensures !Better(a, a)
    ensures a != b ==> Better(a, b) || Better(b, a)
    ensures Better(a, b) && Better(b, c) ==> Better(a, c)
  {
  }

  /** `ranks[i]` is None for a candidate that may not be used. */
  predicate IsBest(ranks: seq<Option<Rank>>, i: nat) {
    && i < |ranks| && ranks[i].Some?
    && forall j :: 0 <= j < |ranks| && ranks[j].Some? ==> !Better(ranks[j].value, ranks[i].value)
  }

  /** The candidates first in line. */
  function TieSet(ranks: seq<Option<Rank>>): set<nat> {
    set i: nat | i < |ranks| && IsBest(ranks, i)
  }

  /** There is a first in line whenever anyone may be used, and all of them rank the same. */
  lemma {:induction false} SomeoneIsBest(ranks: seq<Option<Rank>>, k: nat)
    requires k < |ranks| && ranks[k].Some?
    ensures TieSet(ranks) != {}
    ensures forall i, j :: i in TieSet(ranks) && j in TieSet(ranks) ==> ranks[i] == ranks[j]
  {
    var best: nat := k;
    var i := 0;
    while i < |ranks|
      invariant 0 <= i <= |ranks| && best < |ranks| && ranks[best].Some?
      invariant forall j :: 0 <= j < i && ranks[j].Some? ==> !Better(ranks[j].value, ranks[best].value)
    {
      if ranks[i].Some? && Better(ranks[i].value, ranks[best].value) {
        best := i;
      }
      i := i + 1;
    }
    assert IsBest(ranks, best);
    assert best in TieSet(ranks);
  }

  // ---------------------------------------------------------------- what each scan sees

  /** What is known about a key: balance if known, renewal time if known, and whether it is disabled or cooling down. */
  datatype View = View(credits: Option<int>, renewsAt: Option<int>, blocked: bool)

  /** The day a time falls on (rounding down), for a time the scan regards as known. */
  function Day(time: Option<int>, known: bool): Option<int> {
    if time.Some? && known then Some(time.value / MS_PER_DAY) else None
  }

  /** The script stores 0 for unknown and looks for a positive time. */
  function LuaDay(renewsAt: Option<int>): Option<int> {
    Day(renewsAt, renewsAt.Some? && renewsAt.value > 0)
  }

  /** The local fallback only tests for a missing or zero time. */
  function LocalDay(renewsAt: Option<int>): Option<int> {
    Day(renewsAt, renewsAt.Some? && renewsAt.value != 0)
  }

  /** The admin page takes any date that parses. */
  function AdminDay(renewsAt: Option<int>): Option<int> {
    Day(renewsAt, true)
  }

  /** Renewal times as a credit refresh leaves them: unknown, or after 1970. */
  predicate TimesPositive(views: seq<View>) {
    forall i :: 0 <= i < |views| && views[i].renewsAt.Some? ==> views[i].renewsAt.value > 0
  }

  predicate CanPay(v: View, amount: int) {
    v.credits.Some? && v.credits.value >= amount
  }

  /** Redis: initialised, neither disabled nor cooling down, and enough credits. */
  function LuaRank(v: View, amount: int): Option<Rank> {
    if CanPay(v, amount) && !v.blocked
    then Some(Rank(LuaDay(v.renewsAt), v.credits.value))
    else None
  }

  /** Local fallback: anything not blocked; an unknown balance counts as -1. */
  function LocalRank(v: View): Option<Rank> {
    if v.blocked then None
    else Some(Rank(LocalDay(v.renewsAt), if v.credits.Some? then v.credits.value else -1))
  }

  function LuaRanks(views: seq<View>, amount: int): seq<Option<Rank>> {
    seq(|views|, i requires 0 <= i < |views| => LuaRank(views[i], amount))
  }

  function LocalRanks(views: seq<View>): seq<Option<Rank>> {
    seq(|views|, i requires 0 <= i < |views| => LocalRank(views[i]))
  }

  /** A usage row of the admin page; `billingPeriodEnd` is None when absent or not a date. */
  datatype UsageItem = UsageItem(keyPrefix: string, failed: bool, remainingCredits: Option<int>,
                                 billingPeriodEnd: Option<int>)

  function AdminRank(item: UsageItem): Option<Rank> {
    if !item.failed && item.remainingCredits.Some? && item.remainingCredits.value > 0
    then Some(Rank(AdminDay(item.billingPeriodEnd), item.remainingCredits.value))
    else None
  }

  function AdminRanks(items: seq<UsageItem>): seq<Option<Rank>> {
    seq(|items|, i requires 0 <= i < |items| => AdminRank(items[i]))
  }

  // ---------------------------------------------------------------- the scans

  /** `ties` lists the tie set in ascending order. */
  ghost predicate Lists(ties: seq<nat>, members: set<nat>) {
    && (forall k :: 0 <= k < |ties| ==> ties[k] in members)
    && (forall i :: i in members ==> i in ties)
    && (forall k, l :: 0 <= k < l < |ties| ==> ties[k] < ties[l])
  }

  /** The best so far and its ties among the first `n` candidates. */
  ghost predicate ScannedTo(ranks: seq<Option<Rank>>, n: nat, best: Option<Rank>, ties: seq<nat>) {
    && n <= |ranks|
    && Lists(ties, TieSet(ranks[..n]))
    && (best.None? <==> forall j :: 0 <= j < n ==> ranks[j].None?)
    && (best.None? ==> ties == [])
    && (best.Some? ==> ties != [] && forall k :: 0 <= k < |ties| ==> ranks[ties[k]] == best)
    && (best.Some? ==> forall j :: 0 <= j < n && ranks[j].Some? ==> !Better(ranks[j].value, best.value))
  }

  lemma SkipUnusable(ranks: seq<Option<Rank>>, n: nat, best: Option<Rank>, ties: seq<nat>)
    requires n < |ranks| && ranks[n].None? && ScannedTo(ranks, n, best, ties)
    ensures ScannedTo(ranks, n + 1, best, ties)
  {
    forall i: nat ensures i in TieSet(ranks[..n + 1]) <==> i in TieSet(ranks[..n]) {
      assert forall j :: 0 <= j < n ==> ranks[..n + 1][j] == ranks[..n][j];
    }
    assert TieSet(ranks[..n + 1]) == TieSet(ranks[..n]);
  }

  lemma TakeBetter(ranks: seq<Option<Rank>>, n: nat, best: Option<Rank>, ties: seq<nat>)
    requires n < |ranks| && ranks[n].Some? && ScannedTo(ranks, n, best, ties)
    requires best.None? || Better(ranks[n].value, best.value)
    ensures ScannedTo(ranks, n + 1, ranks[n], [n])
  {
    forall j | 0 <= j < n && ranks[j].Some? ensures Better(ranks[n].value, ranks[j].value) {
      BetterOrders(ranks[n].value, best.value, ranks[j].value);
      BetterOrders(best.value, ranks[j].value, best.value);
    }
    forall j | 0 <= j < n && ranks[j].Some? ensures !Better(ranks[j].value, ranks[n].value) {
      BetterOrders(ranks[n].value, ranks[j].value, ranks[n].value);
    }
    var prefix := ranks[..n + 1];
    forall i: nat | i < n ensures !IsBest(prefix, i) {
      assert prefix[i].Some? ==> Better(prefix[n].value, prefix[i].value);
    }
    BetterOrders(ranks[n].value, ranks[n].value, ranks[n].value);
    assert IsBest(prefix, n);
    assert TieSet(prefix) == {n};
  }

  lemma TakeTie(ranks: seq<Option<Rank>>, n: nat, best: Option<Rank>, ties: seq<nat>)
    requires n < |ranks| && ranks[n].Some? && best == ranks[n] && ScannedTo(ranks, n, best, ties)
    ensures ScannedTo(ranks, n + 1, best, ties + [n])
  {
    BetterOrders(best.value, best.value, best.value);
    forall i: nat ensures i in TieSet(ranks[..n + 1]) <==> i in TieSet(ranks[..n]) || i == n {
      assert forall j :: 0 <= j < n ==> ranks[..n + 1][j] == ranks[..n][j] == ranks[j];
      assert ranks[..n + 1][n] == ranks[n];
      if i in TieSet(ranks[..n]) {
        assert i in ties;
      }
    }
    assert TieSet(ranks[..n + 1]) == TieSet(ranks[..n]) + {n};
  }

  lemma KeepBest(ranks: seq<Option<Rank>>, n: nat, best: Option<Rank>, ties: seq<nat>)
    requires n < |ranks| && ranks[n].Some? && best.Some? && best != ranks[n] && ScannedTo(ranks, n, best, ties)
    requires !Better(ranks[n].value, best.value)
    ensures ScannedTo(ranks, n + 1, best, ties)
  {
    BetterOrders(best.value, ranks[n].value, best.value);
    assert ties[0] in TieSet(ranks[..n]);
    forall i: nat ensures i in TieSet(ranks[..n + 1]) <==> i in TieSet(ranks[..n]) {
      assert forall j :: 0 <= j < n ==> ranks[..n + 1][j] == ranks[..n][j] == ranks[j];
      assert ranks[..n + 1][n] == ranks[n];
      if i in TieSet(ranks[..n]) {
        assert i in ties && ranks[i] == best;
      }
      if i == n {
        assert Better(ranks[..n + 1][ties[0]].value, ranks[n].value);
      }
    }
    assert TieSet(ranks[..n + 1]) == TieSet(ranks[..n]);
  }

  /** The scan of the reserve script; `initialized` is whether any pool has a balance at all. */
  method LuaScan(views: seq<View>, amount: int) returns (ties: seq<nat>, initialized: bool)
    requires amount >= 1
    ensures Lists(ties, TieSet(LuaRanks(views, amount)))
    ensures initialized <==> exists i :: 0 <= i < |views| && views[i].credits.Some?
  {
    hide ScannedTo, Lists;
    ghost var ranks := LuaRanks(views, amount);
    NothingScanned(ranks);
    ghost var best: Option<Rank> := None;
    // The script's `nil` day is the outer None; `math.huge` is the inner one.
    var bestDay: Option<Option<int>>, bestCredits := None, -1;
    ties, initialized := [], false;
    var i := 0;
    while i < |views|
      invariant 0 <= i <= |views|
      invariant ScannedTo(ranks, i, best, ties)
      invariant best == if bestDay.None? then None else Some(Rank(bestDay.value, bestCredits))
      invariant initialized <==> exists k :: 0 <= k < i && views[k].credits.Some?
    {
      if views[i].credits.Some? {
        initialized := true;
        var credits := views[i].credits.value;
        if !views[i].blocked && credits >= amount {
          var day := LuaDay(views[i].renewsAt);
          if bestDay.None? || EarlierDay(day, bestDay.value) || (day == bestDay.value && credits > bestCredits) {
            TakeBetter(ranks, i, best, ties);
            bestDay := Some(day);
            bestCredits := credits;
            ties := [i];
            best := ranks[i];
          } else if day == bestDay.value && credits == bestCredits {
            TakeTie(ranks, i, best, ties);
            ties := ties + [i];
          } else {
            KeepBest(ranks, i, best, ties);
          }
        } else {
          SkipUnusable(ranks, i, best, ties);
        }
      } else {
        SkipUnusable(ranks, i, best, ties);
      }
      i := i + 1;
    }
    AllScanned(ranks, best, ties);
  }

  lemma NothingScanned(ranks: seq<Option<Rank>>)
    ensures ScannedTo(ranks, 0, None, [])
  {
  }

  lemma AllScanned(ranks: seq<Option<Rank>>, best: Option<Rank>, ties: seq<nat>)
    requires ScannedTo(ranks, |ranks|, best, ties)
    ensures Lists(ties, TieSet(ranks))
    ensures ties == [] <==> best.None?
  {
    assert ranks[..|ranks|] == ranks;
  }

  /** The scan of `reserveLocally`. */
  method LocalScan(views: seq<View>) returns (best: seq<nat>)
    ensures Lists(best, TieSet(LocalRanks(views)))
  {
    hide Lists;
    ghost var ranks := LocalRanks(views);
    NothingScanned(ranks);
    ghost var rank: Option<Rank> := None;
    var bestDay: Option<int>, bestCredits := None, -1;
    best := [];
    var i := 0;
    while i < |views|
      invariant 0 <= i <= |views|
      invariant ScannedTo(ranks, i, rank, best)
      invariant rank.Some? ==> rank.value == Rank(bestDay, bestCredits)
    {
      if views[i].blocked {
        SkipUnusable(ranks, i, rank, best);
      } else {
        var day := LocalDay(views[i].renewsAt);
        var credits := if views[i].credits.Some? then views[i].credits.value else -1;
        if |best| == 0 || EarlierDay(day, bestDay) || (day == bestDay && credits > bestCredits) {
          TakeBetter(ranks, i, rank, best);
          best := [i];
          bestDay := day;
          bestCredits := credits;
          rank := ranks[i];
        } else if day == bestDay && credits == bestCredits {
          TakeTie(ranks, i, rank, best);
          best := best + [i];
        } else {
          KeepBest(ranks, i, rank, best);
        }
      }
      i := i + 1;
    }
    AllScanned(ranks, rank, best);
  }

  /** `nextUpPrefixes`: a pass for the best rank, a pass for everyone that has it. */
  method NextUpPrefixes(items: seq<UsageItem>) returns (prefixes: set<string>)
    ensures prefixes == if |Usable(items)| < 2 then {} else set i | i in TieSet(AdminRanks(items)) :: items[i].keyPrefix
  {
    var usable := Usable(items);
    if |usable| < 2 {
      return {};
    }
    ghost var ranks := AdminRanks(items);
    UsableRanks(items);
    var best := AdminRank(items[usable[0]]).value;
    var k := 0;
    while k < |usable|
      invariant 0 <= k <= |usable|
      invariant exists j :: 0 <= j < |usable| && ranks[usable[j]] == Some(best)
      invariant forall j :: 0 <= j < k ==> !Better(ranks[usable[j]].value, best)
    {
      var r := AdminRank(items[usable[k]]).value;
      if Better(r, best) {
        forall j | 0 <= j < k ensures !Better(ranks[usable[j]].value, r) {
          BetterOrders(ranks[usable[j]].value, r, best);
        }
        best := r;
      }
      BetterOrders(r, r, r);
      k := k + 1;
    }
    FirstInLine(items, best);
    prefixes := set i | i in usable && AdminRank(items[i]) == Some(best) :: items[i].keyPrefix;
  }

  /** The filter of `nextUpPrefixes`, as positions. */
  function Usable(items: seq<UsageItem>): seq<nat> {
    UsableUpTo(items, |items|)
  }

  function UsableUpTo(items: seq<UsageItem>, n: nat): seq<nat>
    requires n <= |items|
  {
    if n == 0 then []
    else UsableUpTo(items, n - 1) + (if AdminRank(items[n - 1]).Some? then [n - 1] else [])
  }

  lemma {:induction false} UsableUpToRanks(items: seq<UsageItem>, n: nat)
    requires n <= |items|
    ensures forall i :: i in UsableUpTo(items, n) <==> 0 <= i < n && AdminRank(items[i]).Some?
  {
    if n > 0 {
      UsableUpToRanks(items, n - 1);
    }
  }

  lemma UsableRanks(items: seq<UsageItem>)
    ensures forall i :: i in Usable(items) <==> 0 <= i < |items| && AdminRank(items[i]).Some?
    ensures forall k :: 0 <= k < |Usable(items)| ==>
            Usable(items)[k] < |items| && AdminRank(items[Usable(items)[k]]).Some?
  {
    UsableUpToRanks(items, |items|);
    forall k | 0 <= k < |Usable(items)| ensures Usable(items)[k] < |items| && AdminRank(items[Usable(items)[k]]).Some? {
      assert Usable(items)[k] in Usable(items);
    }
  }

  lemma FirstInLine(items: seq<UsageItem>, best: Rank)
    requires var usable := Usable(items);
             && (forall k :: 0 <= k < |usable| ==> usable[k] < |items| && AdminRank(items[usable[k]]).Some?)
             && (exists j :: 0 <= j < |usable| && AdminRank(items[usable[j]]) == Some(best))
             && (forall j :: 0 <= j < |usable| ==> !Better(AdminRank(items[usable[j]]).value, best))
    ensures forall i :: i in TieSet(AdminRanks(items)) <==> i in Usable(items) && AdminRank(items[i]) == Some(best)
  {
    var usable, ranks := Usable(items), AdminRanks(items);
    UsableRanks(items);
    var j :| 0 <= j < |usable| && AdminRank(items[usable[j]]) == Some(best);
    forall i: nat | i < |items| && ranks[i].Some? ensures IsBest(ranks, i) <==> ranks[i].value == best {
      assert i in usable;
      BetterOrders(best, ranks[i].value, best);
      if IsBest(ranks, i) {
        assert !Better(ranks[usable[j]].value, ranks[i].value);
      }
      forall l | 0 <= l < |ranks| && ranks[l].Some? ensures !Better(ranks[l].value, best) {
        assert l in usable;
      }
    }
  }

  /** With n ties each is picked for one n-th of the random numbers, in order. */
  ghost predicate Picks(ties: seq<nat>, random: real, selected: nat) {
    exists k :: 0 <= k < |ties| && selected == ties[k] && k as real <= random * |ties| as real < (k + 1) as real
  }

  /** The random pick: `ties[floor(random * n)]` for a random number in [0, 1). */
  method PickTie(ties: seq<nat>, random: real) returns (selected: nat)
    requires ties != [] && 0.0 <= random < 1.0
    ensures Picks(ties, random, selected)
  {
    var index := (random * |ties| as real).Floor;
    PickInRange(|ties|, random);
    selected := ties[index];
    assert index as real <= random * |ties| as real < (index + 1) as real;
  }

  lemma PickInRange(n: nat, random: real)
    requires n > 0 && 0.0 <= random < 1.0
    ensures 0 <= (random * n as real).Floor < n
  {
    assert random * n as real < n as real;
    assert random * n as real >= 0.0;
  }

  /** Every member of a tie list can be picked, so the pick is not biased to a prefix. */
  lemma EveryTieCanBePicked(n: nat, k: nat)
    requires k < n
    ensures var random := k as real / n as real; 0.0 <= random < 1.0 && (random * n as real).Floor == k
  {
    var random := k as real / n as real;
    assert random * n as real == k as real;
  }

  // ---------------------------------------------------------------- main results

  /**
    The rule in plain numbers: a known renewal goes before an unknown one, an
    earlier day of the calendar before a later one, and at the same day, or with
    neither known, the larger balance before the smaller.
   */
  ghost predicate GoesBefore(renewal: Option<int>, credits: int, otherRenewal: Option<int>, otherCredits: int) {
    if renewal.Some? && otherRenewal.Some? then
      var day, otherDay := renewal.value / 86_400_000, otherRenewal.value / 86_400_000;
      day < otherDay || (day == otherDay && credits > otherCredits)
    else renewal.Some? || (otherRenewal.None? && credits > otherCredits)
  }

  /** A candidate as a scan reads it: what it takes for its renewal and balance, if it considers it at all. */
  datatype Reading = Passed | Considered(renewal: Option<int>, credits: int)

  /** The considered candidates that none goes before. */
  ghost predicate FirstInLineOf(readings: seq<Reading>, i: nat) {
    && i < |readings| && readings[i].Considered?
    && forall j :: 0 <= j < |readings| && readings[j].Considered? ==>
         !GoesBefore(readings[j].renewal, readings[j].credits, readings[i].renewal, readings[i].credits)
  }

  /** The reserve script reads a pool that is not blocked and can pay; times up to 1970 are unknown to it. */
  function LuaReading(v: View, amount: int): Reading {
    if v.blocked || v.credits == None || v.credits.value < amount then Passed
    else Considered(if v.renewsAt.Some? && v.renewsAt.value <= 0 then None else v.renewsAt, v.credits.value)
  }

  /** The local fallback reads whatever is not blocked, with -1 for an unknown balance. */
  function LocalReading(v: View): Reading {
    if v.blocked then Passed
    else Considered(if v.renewsAt == Some(0) then None else v.renewsAt, if v.credits.Some? then v.credits.value else -1)
  }

  /** The admin page reads what came back with credits left. */
  function AdminReading(item: UsageItem): Reading {
    if item.failed || item.remainingCredits == None || item.remainingCredits.value <= 0 then Passed
    else Considered(item.billingPeriodEnd, item.remainingCredits.value)
  }

  lemma RankedAsRead(ranks: seq<Option<Rank>>, readings: seq<Reading>)
    requires |ranks| == |readings|
    requires forall i :: 0 <= i < |ranks| ==>
               ranks[i] == if readings[i].Passed? then None
                           else Some(Rank(Day(readings[i].renewal, true), readings[i].credits))
    ensures forall i: nat :: i in TieSet(ranks) <==> FirstInLineOf(readings, i)
  {
    forall i: nat ensures i in TieSet(ranks) <==> FirstInLineOf(readings, i) {
      if i < |ranks| && ranks[i].Some? {
        forall j | 0 <= j < |ranks| && ranks[j].Some?
          ensures Better(ranks[j].value, ranks[i].value)
             <==> GoesBefore(readings[j].renewal, readings[j].credits, readings[i].renewal, readings[i].credits)
        {
        }
      }
    }
  }

  /** Each scan lines up exactly the candidates that the rule puts first among those it considers. */
  lemma ScansFollowTheRule(views: seq<View>, amount: int, items: seq<UsageItem>)
    ensures forall i: nat :: i in TieSet(LuaRanks(views, amount))
              <==> FirstInLineOf(seq(|views|, k requires 0 <= k < |views| => LuaReading(views[k], amount)), i)
    ensures forall i: nat :: i in TieSet(LocalRanks(views))
              <==> FirstInLineOf(seq(|views|, k requires 0 <= k < |views| => LocalReading(views[k])), i)
    ensures forall i: nat :: i in TieSet(AdminRanks(items))
              <==> FirstInLineOf(seq(|items|, k requires 0 <= k < |items| => AdminReading(items[k])), i)
  {
    hide TieSet, FirstInLineOf;
    RankedAsRead(LuaRanks(views, amount),
                 seq(|views|, k requires 0 <= k < |views| => LuaReading(views[k], amount)));
    RankedAsRead(LocalRanks(views), seq(|views|, k requires 0 <= k < |views| => LocalReading(views[k])));
    RankedAsRead(AdminRanks(items), seq(|items|, k requires 0 <= k < |items| => AdminReading(items[k])));
  }

  /** The local fallback lines up the same keys as Redis exactly when everyone it puts first can pay. */
  lemma LeadersPay(views: seq<View>, amount: int)
    requires amount >= 0 && TimesPositive(views)
    ensures TieSet(LocalRanks(views)) == TieSet(LuaRanks(views, amount))
       <==> forall i :: i in TieSet(LocalRanks(views)) ==> CanPay(views[i], amount)
  {
    var local, lua := LocalRanks(views), LuaRanks(views, amount);
    if forall i :: i in TieSet(local) ==> CanPay(views[i], amount) {
      forall i: nat ensures i in TieSet(local) <==> i in TieSet(lua) {
        if i in TieSet(local) {
          assert lua[i] == local[i];
          forall j | 0 <= j < |lua| && lua[j].Some? ensures !Better(lua[j].value, lua[i].value) {
            assert local[j] == lua[j];
          }
        }
        if i in TieSet(lua) {
          assert local[i] == lua[i];
          SomeoneIsBest(local, i);
          var b: nat :| b in TieSet(local);
          assert lua[b] == local[b] && !Better(lua[b].value, lua[i].value);
          assert !Better(local[i].value, local[b].value);
          BetterOrders(local[i].value, local[b].value, local[i].value);
        }
      }
    } else {
      var i: nat :| i in TieSet(local) && !CanPay(views[i], amount);
      assert lua[i].None? && i !in TieSet(lua);
    }
  }

  /** An unblocked key the local scan would have to pass over for one that can pay. */
  ghost predicate Outranked(views: seq<View>, i: nat, amount: int)
    requires i < |views| && !views[i].blocked
  {
    exists j :: 0 <= j < |views| && !views[j].blocked && CanPay(views[j], amount)
             && Better(LocalRank(views[j]).value, LocalRank(views[i]).value)
  }

  /**
    The local fallback, which does not check balances, lines up the same keys as
    Redis if and only if every unblocked key that cannot pay the amount ranks
    behind an unblocked one that can.
   */
  lemma LocalAgreesWithLua(views: seq<View>, amount: int)
    requires amount >= 0 && TimesPositive(views)
    ensures TieSet(LocalRanks(views)) == TieSet(LuaRanks(views, amount))
        <==> forall i: nat :: i < |views| && !views[i].blocked && !CanPay(views[i], amount) ==>
               Outranked(views, i, amount)
  {
    var local := LocalRanks(views);
    LeadersPay(views, amount);
    if forall i :: i in TieSet(local) ==> CanPay(views[i], amount) {
      forall i: nat | i < |views| && !views[i].blocked && !CanPay(views[i], amount)
        ensures Outranked(views, i, amount)
      {
        var b := LeaderBeats(local, i);
        assert Better(LocalRank(views[b]).value, LocalRank(views[i]).value);
      }
    } else {
      var i: nat :| i in TieSet(local) && !CanPay(views[i], amount);
      LeadersUnbeaten(local, i);
      assert !Outranked(views, i, amount) by {
        assert forall j :: 0 <= j < |views| && !views[j].blocked ==> local[j] == LocalRank(views[j]);
      }
    }
  }

  lemma LeadersUnbeaten(ranks: seq<Option<Rank>>, i: nat)
    requires i in TieSet(ranks)
    ensures i < |ranks| && ranks[i].Some?
    ensures forall j :: 0 <= j < |ranks| && ranks[j].Some? ==> !Better(ranks[j].value, ranks[i].value)
  {
  }

  /** A usable candidate is first in line itself or beaten by one that is. */
  lemma LeaderBeats(ranks: seq<Option<Rank>>, i: nat) returns (b: nat)
    requires i < |ranks| && ranks[i].Some?
    ensures b in TieSet(ranks) && b < |ranks| && ranks[b].Some?
    ensures i in TieSet(ranks) || Better(ranks[b].value, ranks[i].value)
  {
    SomeoneIsBest(ranks, i);
    b :| b in TieSet(ranks);
    BetterOrders(ranks[b].value, ranks[i].value, ranks[b].value);
  }

  /** With known positive balances all round the two agree for one credit. */
  lemma PositiveBalancesAgree(views: seq<View>)
    requires TimesPositive(views)
    requires forall i :: 0 <= i < |views| ==> views[i].credits.Some? && views[i].credits.value > 0
    ensures TieSet(LocalRanks(views)) == TieSet(LuaRanks(views, 1))
  {
    LocalAgreesWithLua(views, 1);
  }

  /** An exhausted key that renews first: the local fallback still sends the request to it. */
  lemma LocalPicksExhaustedKey()
    ensures var views := [View(Some(0), Some(1), false), View(Some(5), None, false)];
            0 in TieSet(LocalRanks(views)) && 0 !in TieSet(LuaRanks(views, 1)) && 1 in TieSet(LuaRanks(views, 1))
  {
    var views := [View(Some(0), Some(1), false), View(Some(5), None, false)];
    assert LocalRanks(views) == [Some(Rank(Some(0), 0)), Some(Rank(None, 5))];
    assert LuaRanks(views, 1) == [None, Some(Rank(None, 5))];
    assert IsBest(LocalRanks(views), 0) && IsBest(LuaRanks(views, 1), 1);
  }

  /** A usage row that tells the admin page what routing knows about an unblocked key. */
  predicate Describes(item: UsageItem, v: View) {
    !item.failed && item.remainingCredits == v.credits && item.billingPeriodEnd == v.renewsAt && !v.blocked
  }

  /** The admin page shows exactly the keys the gateway would pick from for one credit. */
  lemma AdminAgreesWithLua(items: seq<UsageItem>, views: seq<View>)
    requires |items| == |views| && TimesPositive(views)
    requires forall i :: 0 <= i < |items| ==> Describes(items[i], views[i])
    ensures TieSet(AdminRanks(items)) == TieSet(LuaRanks(views, 1))
  {
    assert AdminRanks(items) == LuaRanks(views, 1);
  }
}
