/** The per-address request table of backend/src/app.ts.

    A Map of JavaScript is its entries and the order they were first inserted in: setting a
    key that is present keeps its place.  Times are integer milliseconds. */
module RateTable {
  import opened Text
  import opened Finite

  const MAX_RATE_BUCKETS := 100_000
  const WINDOW := 60_000
  const LIMIT := 500

  type Ip = string
  datatype Bucket = Bucket(count: nat, resetAt: int)
  datatype Table = Table(order: seq<Ip>, at: map<Ip, Bucket>)
  datatype Call = Call(ip: Ip, now: int)

  predicate Valid(t: Table) {
    && Elements(t.order) == t.at.Keys
    && (forall i, j | 0 <= i < j < |t.order| :: t.order[i] != t.order[j])
    && |t.order| <= MAX_RATE_BUCKETS
    && forall k | k in t.at :: t.at[k].count >= 1
  }

  predicate Expired(b: Bucket, now: int) { now > b.resetAt }

  // ---------------------------------------------------------------- one request

  function Without(order: seq<Ip>, gone: set<Ip>): seq<Ip> {
    if order == [] then []
    else if order[0] in gone then Without(order[1..], gone)
    else [order[0]] + Without(order[1..], gone)
  }

  function Removed(t: Table, gone: set<Ip>): Table {
    Table(Without(t.order, gone), t.at - gone)
  }

  /** The expired keys, in order. */
  function ExpiredKeys(order: seq<Ip>, at: map<Ip, Bucket>, now: int): (r: seq<Ip>)
    requires forall k | k in order :: k in at
    ensures forall k :: k in r <==> k in order && Expired(at[k], now)
  {
    if order == [] then []
    else
      var last := order[|order| - 1];
      ExpiredKeys(order[..|order| - 1], at, now) + (if Expired(at[last], now) then [last] else [])
  }

  /** Index `i` holds the earliest reset, and the first such. */
  predicate EarliestAt(order: seq<Ip>, at: map<Ip, Bucket>, i: nat)
    requires forall k | k in order :: k in at
  {
    && i < |order|
    && (forall j | 0 <= j < |order| :: at[order[i]].resetAt <= at[order[j]].resetAt)
    && forall j | 0 <= j < i :: at[order[i]].resetAt < at[order[j]].resetAt
  }

  function Earliest(order: seq<Ip>, at: map<Ip, Bucket>): (i: nat)
    requires order != [] && forall k | k in order :: k in at
    ensures EarliestAt(order, at, i)
  {
    if |order| == 1 then 0
    else
      var front := order[..|order| - 1];
      var i := Earliest(front, at);
      assert forall j | 0 <= j < |front| :: order[j] == front[j];
      if at[order[|order| - 1]].resetAt < at[order[i]].resetAt then |order| - 1 else i
  }

  /** Room for one more entry. */
  function Pruned(t: Table, now: int): Table
    requires Valid(t)
  {
    if |t.order| < MAX_RATE_BUCKETS then t
    else
      ValidKeys(t);
      var gone := Elements(ExpiredKeys(t.order, t.at, now));
      RemovedKeys(t, gone);
      var live := Removed(t, gone);
      if |live.order| < MAX_RATE_BUCKETS then live
      else Removed(live, {live.order[Earliest(live.order, live.at)]})
  }

  function NextBucket(t: Table, c: Call): (b: Bucket)
    ensures b.count >= 1
  {
    if c.ip in t.at && !Expired(t.at[c.ip], c.now) then
      Bucket(t.at[c.ip].count + 1, t.at[c.ip].resetAt)
    else Bucket(1, c.now + WINDOW)
  }

  function Set(t: Table, ip: Ip, b: Bucket): Table {
    Table(if ip in t.at then t.order else t.order + [ip], t.at[ip := b])
  }

  /** The table after a request, and whether the request passes. */
  function Step(t: Table, c: Call): (Table, bool)
    requires Valid(t)
  {
    var b := NextBucket(t, c);
    (Set(if c.ip in t.at then t else Pruned(t, c.now), c.ip, b), b.count <= LIMIT)
  }

  // ---------------------------------------------------------------- steps of the loops

  lemma ValidKeys(t: Table)
    requires Valid(t)
    ensures forall k :: k in t.order <==> k in t.at
  {
    assert forall k :: k in t.order <==> k in Elements(t.order);
  }

  lemma ExpiredKeysMore(order: seq<Ip>, at: map<Ip, Bucket>, now: int, i: nat)
    requires i < |order| && forall k | k in order :: k in at
    ensures ExpiredKeys(order[..i + 1], at, now)
      == ExpiredKeys(order[..i], at, now) + (if Expired(at[order[i]], now) then [order[i]] else [])
  {
    assert order[..i + 1][..i] == order[..i];
  }

  lemma ExpiredKeysNone(at: map<Ip, Bucket>, now: int)
    ensures ExpiredKeys([], at, now) == []
  {
  }

  lemma EarliestMore(order: seq<Ip>, at: map<Ip, Bucket>, i: nat)
    requires i < |order| && forall k | k in order :: k in at
    ensures order[Earliest(order[..i + 1], at)] == (
      if i == 0 then order[0]
      else
        var e := order[..i][Earliest(order[..i], at)];
        if at[order[i]].resetAt < at[e].resetAt then order[i] else e)
  {
    if i > 0 { assert order[..i + 1][..i] == order[..i]; }
  }

  lemma {:induction false} WithoutKeys(order: seq<Ip>, gone: set<Ip>)
    ensures forall k :: k in Without(order, gone) <==> k in order && k !in gone
    ensures |Without(order, gone)| <= |order|
    ensures |Without(order, gone)| == |order| ==> Without(order, gone) == order
  {
    if order != [] {
      WithoutKeys(order[1..], gone);
      assert order == [order[0]] + order[1..];
      WithoutCons(order[0], order[1..], gone);
      hide Without;
      forall k ensures k in Without(order, gone) <==> k in order && k !in gone {
        assert k in order <==> k == order[0] || k in order[1..];
      }
    }
  }

  lemma WithoutCons(x: Ip, rest: seq<Ip>, gone: set<Ip>)
    ensures Without([x] + rest, gone) == if x in gone then Without(rest, gone) else [x] + Without(rest, gone)
  {
    assert ([x] + rest)[1..] == rest;
  }

  lemma {:induction false} WithoutMore(order: seq<Ip>, gone: set<Ip>, k: Ip)
    ensures Without(Without(order, gone), {k}) == Without(order, gone + {k})
  {
    if order != [] {
      WithoutMore(order[1..], gone, k);
      WithoutCons(order[0], Without(order[1..], gone), {k});
      assert order == [order[0]] + order[1..];
      WithoutCons(order[0], order[1..], gone);
      WithoutCons(order[0], order[1..], gone + {k});
      hide Without;
    }
  }

  lemma RemovedMore(t: Table, gone: set<Ip>, k: Ip)
    ensures Removed(Removed(t, gone), {k}) == Removed(t, gone + {k})
  {
    WithoutMore(t.order, gone, k);
  }

  lemma {:induction false} WithoutNothing(order: seq<Ip>)
    ensures Without(order, {}) == order
  {
    if order != [] { WithoutNothing(order[1..]); }
  }

  lemma RemovedNothing(t: Table)
    ensures Removed(t, {}) == t
  {
    WithoutNothing(t.order);
  }

  // ---------------------------------------------------------------- the table stays sound

  predicate Distinct(order: seq<Ip>) {
    forall i, j | 0 <= i < j < |order| :: order[i] != order[j]
  }

  lemma {:induction false} WithoutDistinct(order: seq<Ip>, gone: set<Ip>)
    requires Distinct(order)
    ensures Distinct(Without(order, gone))
  {
    if order != [] {
      var rest := Without(order[1..], gone);
      assert Distinct(order[1..]);
      WithoutDistinct(order[1..], gone);
      WithoutKeys(order[1..], gone);
      assert order[0] !in order[1..];
      assert order[0] !in rest;
      if order[0] !in gone { assert ([order[0]] + rest)[1..] == rest; }
    }
  }

  lemma RemovedKeys(t: Table, gone: set<Ip>)
    requires Valid(t)
    ensures Valid(Removed(t, gone))
    ensures forall k :: k in Removed(t, gone).order <==> k in Removed(t, gone).at
  {
    ValidKeys(t);
    WithoutDistinct(t.order, gone);
    WithoutKeys(t.order, gone);
    hide Without;
    var r := Removed(t, gone);
    assert Elements(r.order) == r.at.Keys;
  }

  lemma PrunedNothing(t: Table, now: int)
    requires Valid(t) && |t.order| < MAX_RATE_BUCKETS
    ensures Pruned(t, now) == t
  {
  }

  /** Pruning makes room. */
  lemma PrunedKeys(t: Table, now: int)
    requires Valid(t)
    ensures Valid(Pruned(t, now)) && |Pruned(t, now).order| < MAX_RATE_BUCKETS
    ensures Pruned(t, now).at.Keys <= t.at.Keys
    ensures forall k :: k in Pruned(t, now).order <==> k in Pruned(t, now).at
  {
    hide Without, ExpiredKeys, Earliest;
    ValidKeys(t);
    if |t.order| >= MAX_RATE_BUCKETS {
      var gone := Elements(ExpiredKeys(t.order, t.at, now));
      RemovedKeys(t, gone);
      var live := Removed(t, gone);
      if |live.order| >= MAX_RATE_BUCKETS {
        var first := live.order[Earliest(live.order, live.at)];
        RemovedKeys(live, {first});
        WithoutKeys(live.order, {first});
        assert first !in Without(live.order, {first});
      }
    }
  }

  lemma StepValid(t: Table, c: Call)
    requires Valid(t)
    ensures Valid(Step(t, c).0) && c.ip in Step(t, c).0.at
  {
    hide Pruned;
    var p := if c.ip in t.at then t else Pruned(t, c.now);
    if c.ip !in t.at { PrunedKeys(t, c.now); }
    ValidKeys(t);
    var after := Step(t, c).0;
    assert Elements(after.order) == after.at.Keys;
  }

  // ---------------------------------------------------------------- eviction

  /** Among all entries `k` has the earliest reset, and was inserted first of those. */
  ghost predicate FirstToReset(t: Table, k: Ip)
    requires Valid(t)
  {
    ValidKeys(t);
    exists i: nat :: EarliestAt(t.order, t.at, i) && t.order[i] == k
  }

  /** A request removes an entry if and only if it is by a new address, the table is full, and
      the entry has expired or, when no entry has, is the first to reset. */
  lemma EvictedIff(t: Table, c: Call, k: Ip)
    requires Valid(t) && k in t.at
    ensures k !in Step(t, c).0.at <==>
      && c.ip !in t.at && |t.order| == 100_000
      && (c.now > t.at[k].resetAt
          || ((forall x | x in t.at :: c.now <= t.at[x].resetAt) && FirstToReset(t, k)))
  {
    hide Without, ExpiredKeys, Earliest;
    ValidKeys(t);
    if c.ip !in t.at && |t.order| == MAX_RATE_BUCKETS {
      var gone := Elements(ExpiredKeys(t.order, t.at, c.now));
      RemovedKeys(t, gone);
      if gone == {} {
        RemovedNothing(t);
        var i := Earliest(t.order, t.at);
        assert EarliestAt(t.order, t.at, i);
        EarliestUnique(t, i, k);
      } else {
        WithoutKeys(t.order, gone);
        var x :| x in gone;
        assert x in t.order && x !in Removed(t, gone).order;
        assert |Removed(t, gone).order| < MAX_RATE_BUCKETS;
      }
    }
  }

  lemma EarliestUnique(t: Table, i: nat, k: Ip)
    requires Valid(t) && (forall x | x in t.order :: x in t.at) && EarliestAt(t.order, t.at, i)
    ensures FirstToReset(t, k) <==> t.order[i] == k
  {
    forall j: nat | EarliestAt(t.order, t.at, j) ensures j == i {
      assert t.at[t.order[i]].resetAt == t.at[t.order[j]].resetAt;
    }
  }

  /** What is not removed and not the caller's keeps its bucket. */
  lemma OthersKept(t: Table, c: Call, k: Ip)
    requires Valid(t) && k != c.ip
    ensures k in Step(t, c).0.at ==> k in t.at && Step(t, c).0.at[k] == t.at[k]
  {
    hide Without, ExpiredKeys, Earliest;
    PrunedKeys(t, c.now);
  }

  // ---------------------------------------------------------------- the request hook

  class RateBuckets {
    var order: seq<Ip>
    var at: map<Ip, Bucket>

    ghost function Contents(): Table reads this { Table(order, at) }

    constructor ()
      ensures Contents() == Table([], map[])
    {
      order, at := [], map[];
    }

    method Delete(k: Ip)
      modifies this
      ensures Contents() == Removed(old(Contents()), {k})
    {
      order, at := Without(order, {k}), at - {k};
    }

    method Request(ip: Ip, now: int) returns (passed: bool)
      requires Valid(Contents())
      modifies this
      ensures (Contents(), passed) == Step(old(Contents()), Call(ip, now))
    {
      hide Without, ExpiredKeys, Earliest, Pruned, Valid;
      ghost var was := Contents();
      var bucket := Bucket(1, now + WINDOW);
      var known := ip in at;
      if known && now <= at[ip].resetAt {
        bucket := Bucket(at[ip].count + 1, at[ip].resetAt);
        at := at[ip := bucket];
      }
      if !known && |order| >= MAX_RATE_BUCKETS {
        Prune(now);
      } else if !known {
        PrunedNothing(was, now);
      }
      order, at := if ip in at then order else order + [ip], at[ip := bucket];
      passed := !(bucket.count > LIMIT);
      assert bucket == NextBucket(was, Call(ip, now));
      if known {
        assert at == was.at[ip := bucket];
      } else {
        PrunedKeys(was, now);
      }
    }

    /** Collects the expired keys, then deletes them. */
    method DropExpired(now: int)
      requires Valid(Contents())
      requires forall k | k in order :: k in at
      modifies this
      ensures Contents() == Removed(old(Contents()), Elements(ExpiredKeys(old(order), old(at), now)))
    {
      hide Without, ExpiredKeys, Valid;
      ghost var was := Contents();
      var expired := [];
      ExpiredKeysNone(at, now);
      for i := 0 to |order|
        invariant Contents() == was
        invariant expired == ExpiredKeys(order[..i], at, now)
      {
        ExpiredKeysMore(order, at, now, i);
        if now > at[order[i]].resetAt { expired := expired + [order[i]]; }
      }
      assert order[..|order|] == order;
      RemovedNothing(was);
      assert Elements(expired[..0]) == {};
      for i := 0 to |expired|
        invariant Contents() == Removed(was, Elements(expired[..i]))
      {
        assert expired[..i + 1] == expired[..i] + [expired[i]];
        assert Elements(expired[..i + 1]) == Elements(expired[..i]) + {expired[i]};
        RemovedMore(was, Elements(expired[..i]), expired[i]);
        Delete(expired[i]);
      }
      assert expired[..|expired|] == expired;
    }

    /** The first key with the earliest reset. */
    method FindOldest() returns (oldest: Option<Ip>)
      requires forall k | k in order :: k in at
      ensures if order == [] then oldest == None else oldest == Some(order[Earliest(order, at)])
    {
      hide Earliest;
      oldest := None;
      for i := 0 to |order|
        invariant if i == 0 then oldest == None else
          oldest.Some? && oldest.value in at && oldest.value == order[Earliest(order[..i], at)]
      {
        EarliestMore(order, at, i);
        if oldest == None || at[order[i]].resetAt < at[oldest.value].resetAt {
          oldest := Some(order[i]);
        }
      }
      assert order[..|order|] == order;
    }

    method Prune(now: int)
      requires Valid(Contents()) && |order| >= MAX_RATE_BUCKETS
      modifies this
      ensures Contents() == Pruned(old(Contents()), now)
    {
      hide Without, ExpiredKeys, Earliest, Valid, Removed;
      ghost var was := Contents();
      ValidKeys(was);
      DropExpired(now);
      RemovedKeys(was, Elements(ExpiredKeys(was.order, was.at, now)));
      if |order| >= MAX_RATE_BUCKETS {
        var oldest := FindOldest();
        if oldest != None { Delete(oldest.value); }
      }
    }
  }

  // ---------------------------------------------------------------- runs

  function After(t: Table, calls: seq<Call>): (r: Table)
    requires Valid(t)
    ensures Valid(r)
    decreases |calls|
  {
    if calls == [] then t
    else
      StepValid(t, calls[0]);
      After(Step(t, calls[0]).0, calls[1..])
  }

  /** How many requests of `ip` pass. */
  function Passed(t: Table, calls: seq<Call>, ip: Ip): nat
    requires Valid(t)
    decreases |calls|
  {
    if calls == [] then 0
    else
      StepValid(t, calls[0]);
      (if calls[0].ip == ip && Step(t, calls[0]).1 then 1 else 0) + Passed(Step(t, calls[0]).0, calls[1..], ip)
  }

  predicate EvictedLive(t: Table, c: Call, ip: Ip)
    requires Valid(t)
  {
    ip in t.at && !Expired(t.at[ip], c.now) && ip !in Step(t, c).0.at
  }

  /** How often the bucket of `ip` is removed before it expires. */
  function LiveEvictions(t: Table, calls: seq<Call>, ip: Ip): nat
    requires Valid(t)
    decreases |calls|
  {
    if calls == [] then 0
    else
      StepValid(t, calls[0]);
      (if EvictedLive(t, calls[0], ip) then 1 else 0) + LiveEvictions(Step(t, calls[0]).0, calls[1..], ip)
  }

  /** All times lie between `from` and `to`, and the clock does not go back. */
  predicate Within(calls: seq<Call>, from: int, to: int) {
    forall i, j | 0 <= i <= j < |calls| :: from <= calls[i].now <= calls[j].now <= to
  }

  /** The 60 seconds from `from` on. */
  predicate InSpan(calls: seq<Call>, from: int) { Within(calls, from, from + 60_000) }

  /** How many more requests of `ip` can pass between `from` and `end`. */
  function Budget(t: Table, ip: Ip, from: int, end: int): int {
    if ip !in t.at || Expired(t.at[ip], from) then LIMIT
    else
      var left := if t.at[ip].count <= LIMIT then LIMIT - t.at[ip].count else 0;
      if Expired(t.at[ip], end) then left + LIMIT else left
  }

  lemma StepSpends(t: Table, c: Call, ip: Ip, from: int, end: int)
    requires Valid(t) && from <= c.now <= end <= c.now + WINDOW
    ensures (if c.ip == ip && Step(t, c).1 then 1 else 0) + Budget(Step(t, c).0, ip, c.now, end)
      <= Budget(t, ip, from, end) + (if EvictedLive(t, c, ip) then LIMIT else 0)
  {
    hide Pruned, Valid;
    if c.ip != ip { OthersKept(t, c, ip); }
  }

  /** From any state, over 60 seconds. */
  lemma {:induction false} PassedBound(t: Table, calls: seq<Call>, ip: Ip, from: int, end: int)
    requires Valid(t) && Within(calls, from, end) && end <= from + WINDOW
    ensures Passed(t, calls, ip) <= Budget(t, ip, from, end) + LIMIT * LiveEvictions(t, calls, ip)
    decreases |calls|
  {
    hide Valid, Step, Budget, EvictedLive;
    if calls != [] {
      var c, next := calls[0], Step(t, calls[0]).0;
      StepValid(t, c);
      StepSpends(t, c, ip, from, end);
      PassedBound(next, calls[1..], ip, c.now, end);
    } else {
      BudgetBounds(t, ip, from, end);
    }
  }

  lemma BudgetBounds(t: Table, ip: Ip, from: int, end: int)
    ensures 0 <= Budget(t, ip, from, end)
    ensures Valid(t) ==> Budget(t, ip, from, end) <= 2 * LIMIT - 1
  {
  }

  /** In every run that starts with the empty table, the table never exceeds 100000 entries;
      and if the clock does not go back during a stretch of at most 60 seconds, an address
      passes at most 999 times in it, plus 500 for each time its bucket was removed before it
      expired. */
  lemma SpanBound(before: seq<Call>, stretch: seq<Call>, ip: Ip, from: int)
    requires InSpan(stretch, from)
    ensures var t := After(Table([], map[]), before);
      && |t.order| <= 100_000
      && |t.at| == |t.order|
      && Passed(t, stretch, ip) <= 999 + 500 * LiveEvictions(t, stretch, ip)
  {
    var t := After(Table([], map[]), before);
    PassedBound(t, stretch, ip, from, from + WINDOW);
    BudgetBounds(t, ip, from, from + WINDOW);
    ElementsSize(t.order);
  }

  // ---------------------------------------------------------------- when 500 is kept, and 999 reached

  /** The table with another bucket for an address it knows. */
  function With(t: Table, ip: Ip, b: Bucket): (r: Table)
    requires Valid(t) && ip in t.at && b.count >= 1
    ensures Valid(r)
  {
    assert t.at[ip := b].Keys == t.at.Keys;
    Table(t.order, t.at[ip := b])
  }

  lemma StepKnown(t: Table, ip: Ip, b: Bucket, now: int)
    requires Valid(t) && ip in t.at && b.count >= 1
    ensures var next := if now > b.resetAt then Bucket(1, now + WINDOW) else Bucket(b.count + 1, b.resetAt);
      Step(With(t, ip, b), Call(ip, now)) == (With(t, ip, next), next.count <= LIMIT)
  {
    hide Pruned, Valid;
    var next := NextBucket(With(t, ip, b), Call(ip, now));
    assert t.at[ip := b][ip := next] == t.at[ip := next];
  }

  /** Requests in a live window pass one by one. */
  lemma {:induction false} RepeatPasses(t: Table, ip: Ip, b: Bucket, now: int, n: nat, rest: seq<Call>)
    requires Valid(t) && ip in t.at && 1 <= b.count && b.count + n <= LIMIT && now <= b.resetAt
    ensures Passed(With(t, ip, b), Repeat(Call(ip, now), n) + rest, ip)
      == n + Passed(With(t, ip, Bucket(b.count + n, b.resetAt)), rest, ip)
    decreases n
  {
    hide Step, With, Valid, Pruned;
    var calls := Repeat(Call(ip, now), n) + rest;
    if n == 0 {
      assert calls == rest;
    } else {
      assert calls[0] == Call(ip, now) && calls[1..] == Repeat(Call(ip, now), n - 1) + rest;
      StepKnown(t, ip, b, now);
      RepeatPasses(t, ip, Bucket(b.count + 1, b.resetAt), now, n - 1, rest);
    }
  }

  /** Once a window is over, 500 pass at once. */
  lemma FreshWindow(t: Table, ip: Ip, b: Bucket, now: int)
    requires Valid(t) && ip in t.at && b.count >= 1 && now > b.resetAt
    ensures Passed(With(t, ip, b), [Call(ip, now)] + Repeat(Call(ip, now), LIMIT - 1), ip) == LIMIT
  {
    hide Step, With, Valid, Pruned;
    var c := Call(ip, now);
    var calls := [c] + Repeat(c, LIMIT - 1);
    StepKnown(t, ip, b, now);
    RepeatPasses(t, ip, Bucket(1, now + WINDOW), now, LIMIT - 1, []);
    assert calls[0] == c && calls[1..] == Repeat(c, LIMIT - 1) + [];
  }

  /** `n` requests at `from`, as many as the bucket has left, and 500 once its window is over. */
  function Burst(ip: Ip, from: int, n: nat, later: int): (r: seq<Call>)
    requires from <= later
    ensures Within(r, from, later) && forall c | c in r :: c.ip == ip
  {
    Repeat(Call(ip, from), n) + ([Call(ip, later)] + Repeat(Call(ip, later), LIMIT - 1))
  }

  lemma BurstPasses(t: Table, ip: Ip, from: int, n: nat)
    requires Valid(t) && ip in t.at && from <= t.at[ip].resetAt && t.at[ip].count + n <= LIMIT
    ensures Passed(t, Burst(ip, from, n, t.at[ip].resetAt + 1), ip) == n + LIMIT
    ensures LiveEvictions(t, Burst(ip, from, n, t.at[ip].resetAt + 1), ip) == 0
  {
    hide Passed, LiveEvictions, Valid;
    var b := t.at[ip];
    assert b.count >= 1 by { KnownCount(t, ip); }
    assert With(t, ip, b) == t by { assert t.at[ip := b] == t.at; }
    var later := Call(ip, b.resetAt + 1);
    RepeatPasses(t, ip, b, from, n, [later] + Repeat(later, LIMIT - 1));
    FreshWindow(t, ip, Bucket(b.count + n, b.resetAt), b.resetAt + 1);
    NeverEvicted(t, Burst(ip, from, n, b.resetAt + 1), ip);
  }

  lemma KnownCount(t: Table, ip: Ip)
    requires Valid(t) && ip in t.at
    ensures t.at[ip].count >= 1
  {
  }

  /** From any state: an address is held to 500 requests in the 60 seconds from `from`, early
      evictions aside, if and only if it has no bucket, or its bucket is used up, or its window
      does not end within the span. */
  lemma LimitKeptIff(t: Table, ip: Ip, from: int)
    requires Valid(t)
    ensures (forall stretch ::
               InSpan(stretch, from) && LiveEvictions(t, stretch, ip) == 0 ==> Passed(t, stretch, ip) <= 500)
      <==> ip !in t.at || t.at[ip].count >= 500 || !(from <= t.at[ip].resetAt < from + 60_000)
  {
    hide Passed, LiveEvictions, Valid;
    if ip !in t.at || t.at[ip].count >= LIMIT || !(from <= t.at[ip].resetAt < from + WINDOW) {
      forall stretch | InSpan(stretch, from) && LiveEvictions(t, stretch, ip) == 0
        ensures Passed(t, stretch, ip) <= LIMIT
      {
        PassedBound(t, stretch, ip, from, from + WINDOW);
      }
    } else {
      var stretch := Burst(ip, from, 1, t.at[ip].resetAt + 1);
      BurstPasses(t, ip, from, 1);
      assert InSpan(stretch, from);
    }
  }

  /** A request at time 0, 499 at 60000 and 500 at 60001: the last 999, within 60 seconds, all
      pass. */
  lemma BoundReached(ip: Ip)
    ensures exists before, stretch, from ::
      && InSpan(stretch, from)
      && Passed(After(Table([], map[]), before), stretch, ip) == 999
      && LiveEvictions(After(Table([], map[]), before), stretch, ip) == 0
  {
    hide Passed, After, LiveEvictions, Valid;
    var first := Call(ip, 0);
    AfterFirst(first);
    BurstPasses(After(Table([], map[]), [first]), ip, WINDOW, LIMIT - 1);
    assert InSpan(Burst(ip, WINDOW, LIMIT - 1, WINDOW + 1), 1);
  }

  lemma AfterFirst(c: Call)
    ensures Valid(Table([], map[]))
    ensures After(Table([], map[]), [c]) == Table([c.ip], map[c.ip := Bucket(1, c.now + WINDOW)])
  {
    PrunedNothing(Table([], map[]), c.now);
    StepValid(Table([], map[]), c);
    hide Pruned;
    var b := NextBucket(Table([], map[]), c);
    assert Set(Table([], map[]), c.ip, b) == Table([c.ip], map[c.ip := b]);
    assert [c][1..] == [];
  }

  /** Requests of an address never evict its own bucket. */
  lemma {:induction false} NeverEvicted(t: Table, calls: seq<Call>, ip: Ip)
    requires Valid(t) && forall c | c in calls :: c.ip == ip
    ensures LiveEvictions(t, calls, ip) == 0
    decreases |calls|
  {
    if calls != [] {
      StepValid(t, calls[0]);
      hide Step, Valid;
      NeverEvicted(Step(t, calls[0]).0, calls[1..], ip);
    }
  }

  /** A request passes unless its address has had 500 in a window that is not over; the window is
      60 seconds from the first one. */
  lemma RequestMeans(t: Table, ip: Ip, now: int)
    requires Valid(t)
    ensures var live := ip in t.at && now <= t.at[ip].resetAt;
      && Step(t, Call(ip, now)).1 == !(live && t.at[ip].count >= 500)
      && ip in Step(t, Call(ip, now)).0.at
      && Step(t, Call(ip, now)).0.at[ip] ==
           if live then Bucket(t.at[ip].count + 1, t.at[ip].resetAt) else Bucket(1, now + 60_000)
  {
    hide Pruned, Valid;
  }
}
