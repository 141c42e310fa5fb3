/** The token bucket limiter of halo/src/ratelimit.rs.

    Amounts and times are real numbers.  The one idea behind the laws is the level of an
    address: how many tokens it would have at a given time.  Eviction of an idle bucket and a
    denied call change buckets but no level. */
module RateLimit {
  import opened Text

  const SHARD_COUNT := 64
  const CLEANUP_THRESHOLD := 10_000
  const CLEANUP_IDLE_SECS := 60

  type Ip = string
  datatype Bucket = Bucket(tokens: real, lastRefill: real)
  type Table = map<Ip, Bucket>

  /** Configured numbers are unsigned integers, converted. */
  datatype Config = Config(requestsPerSec: nat, burstSize: nat, enabled: bool, whitelist: seq<string>)
  {
    function Rate(): real { requestsPerSec as real }
    function Burst(): (r: real)
      ensures r >= 0.0
    {
      burstSize as real
    }

    predicate Whitelisted(ip: Ip) {
      exists i | 0 <= i < |whitelist| :: whitelist[i] == ip || StartsWith(ip, whitelist[i])
    }

    predicate Limits(ip: Ip) { enabled && !Whitelisted(ip) }
  }

  datatype Call = Call(ip: Ip, now: real)

  function Cap(a: real, b: real): real { if a <= b then a else b }

  // ---------------------------------------------------------------- one call

  /** Tokens earned in `elapsed` seconds. */
  function Earned(cfg: Config, elapsed: real): real { elapsed * cfg.Rate() }

  function Refill(cfg: Config, b: Bucket, now: real): real {
    Cap(b.tokens + Earned(cfg, now - b.lastRefill), cfg.Burst())
  }

  /** A bucket after `now`: refilled up to the burst size, and one token less if it had one. */
  function Touched(cfg: Config, b: Bucket, now: real): (r: (Bucket, bool))
  {
    var tokens := Refill(cfg, b, now);
    if tokens >= 1.0 then (Bucket(tokens - 1.0, now), true) else (Bucket(tokens, now), false)
  }

  function BucketOf(cfg: Config, m: Table, ip: Ip, now: real): Bucket {
    if ip in m then m[ip] else Bucket(cfg.Burst(), now)
  }

  predicate Kept(cfg: Config, b: Bucket, now: real) {
    b.tokens < cfg.Burst() || (now - b.lastRefill).Floor < CLEANUP_IDLE_SECS
  }

  function Cleaned(cfg: Config, m: Table, now: real): Table {
    if |m| > CLEANUP_THRESHOLD then map ip | ip in m && Kept(cfg, m[ip], now) :: m[ip] else m
  }

  function ShardOf(hash: Ip -> nat, ip: Ip): nat { hash(ip) % SHARD_COUNT }

  /** One call on the sharded state. */
  function Step(cfg: Config, hash: Ip -> nat, shards: seq<Table>, c: Call): (r: (seq<Table>, bool))
    requires |shards| == SHARD_COUNT
    ensures |r.0| == SHARD_COUNT
  {
    if !cfg.Limits(c.ip) then (shards, true)
    else
      var k := ShardOf(hash, c.ip);
      var m := Cleaned(cfg, shards[k], c.now);
      var r := Touched(cfg, BucketOf(cfg, m, c.ip, c.now), c.now);
      (shards[k := m[c.ip := r.0]], r.1)
  }

  class RateLimiter {
    const cfg: Config
    const hash: Ip -> nat
    var shards: array<Table>

    constructor (cfg: Config, hash: Ip -> nat)
      ensures this.cfg == cfg && this.hash == hash && fresh(shards)
      ensures shards.Length == SHARD_COUNT && shards[..] == NoShards()
    {
      this.cfg, this.hash := cfg, hash;
      shards := new Table[SHARD_COUNT](_ => map[]);
    }

    /** `now` is the clock read inside the shard's lock. */
    method Check(ip: Ip, now: real) returns (admitted: bool)
      requires shards.Length == SHARD_COUNT
      modifies shards
      ensures (shards[..], admitted) == Step(cfg, hash, old(shards[..]), Call(ip, now))
    {
      hide Earned;
      if !cfg.enabled { return true; }
      if cfg.Whitelisted(ip) { return true; }
      var idx := hash(ip) % SHARD_COUNT;
      var m := shards[idx];
      if |m| > CLEANUP_THRESHOLD {
        var burst := cfg.Burst();
        m := map k | k in m && (m[k].tokens < burst || (now - m[k].lastRefill).Floor < CLEANUP_IDLE_SECS) :: m[k];
      }
      ghost var before := old(shards[..]);
      assert before[idx] == old(shards[idx]);
      assert m == Cleaned(cfg, before[idx], now);
      ghost var cleaned := m;
      if ip !in m { m := m[ip := Bucket(cfg.Burst(), now)]; }
      var bucket := m[ip];
      var elapsed := now - bucket.lastRefill;
      var tokens := Cap(bucket.tokens + Earned(cfg, elapsed), cfg.Burst());
      if tokens >= 1.0 {
        bucket := Bucket(tokens - 1.0, now);
        admitted := true;
      } else {
        bucket := Bucket(tokens, now);
        admitted := false;
      }
      assert (bucket, admitted) == Touched(cfg, BucketOf(cfg, cleaned, ip, now), now);
      assert m[ip := bucket] == cleaned[ip := bucket];
      shards[idx] := m[ip := bucket];
      assert shards[..] == before[idx := cleaned[ip := bucket]];
    }
  }

  // ---------------------------------------------------------------- the simple limiter

  /** One call on a single map that never forgets. */
  function PlainStep(cfg: Config, m: Table, c: Call): (Table, bool) {
    if !cfg.Limits(c.ip) then (m, true)
    else
      var r := Touched(cfg, BucketOf(cfg, m, c.ip, c.now), c.now);
      (m[c.ip := r.0], r.1)
  }

  function NoShards(): (r: seq<Table>)
    ensures |r| == SHARD_COUNT
  {
    seq(SHARD_COUNT, _ => map[])
  }

  function Answers(cfg: Config, hash: Ip -> nat, shards: seq<Table>, calls: seq<Call>): (r: seq<bool>)
    requires |shards| == SHARD_COUNT
    ensures |r| == |calls|
    decreases |calls|
  {
    if calls == [] then []
    else
      var s := Step(cfg, hash, shards, calls[0]);
      [s.1] + Answers(cfg, hash, s.0, calls[1..])
  }

  function PlainAnswers(cfg: Config, m: Table, calls: seq<Call>): (r: seq<bool>)
    ensures |r| == |calls|
    decreases |calls|
  {
    if calls == [] then []
    else
      var s := PlainStep(cfg, m, calls[0]);
      [s.1] + PlainAnswers(cfg, s.0, calls[1..])
  }

  /** The state after a run. */
  function After(cfg: Config, hash: Ip -> nat, shards: seq<Table>, calls: seq<Call>): (r: seq<Table>)
    requires |shards| == SHARD_COUNT
    ensures |r| == SHARD_COUNT
    decreases |calls|
  {
    if calls == [] then shards else After(cfg, hash, Step(cfg, hash, shards, calls[0]).0, calls[1..])
  }

  function PlainAfter(cfg: Config, m: Table, calls: seq<Call>): Table
    decreases |calls|
  {
    if calls == [] then m else PlainAfter(cfg, PlainStep(cfg, m, calls[0]).0, calls[1..])
  }

  /** The clock does not go back. */
  predicate Ordered(start: real, calls: seq<Call>) {
    forall i | 0 <= i < |calls| :: start <= calls[i].now && (i > 0 ==> calls[i - 1].now <= calls[i].now)
  }

  // ---------------------------------------------------------------- levels

  /** How many tokens the address has at time `t`, if it is not called before. */
  function Level(cfg: Config, m: Table, ip: Ip, t: real): real {
    if ip in m then Refill(cfg, m[ip], t) else cfg.Burst()
  }

  ghost predicate SameLevels(cfg: Config, a: Table, b: Table, t: real) {
    forall ip :: Level(cfg, a, ip, t) == Level(cfg, b, ip, t)
  }

  lemma EarnedNonNegative(cfg: Config, elapsed: real)
    requires 0.0 <= elapsed
    ensures 0.0 <= Earned(cfg, elapsed)
  {
  }

  lemma EarnedNothing(cfg: Config)
    ensures Earned(cfg, 0.0) == 0.0
  {
  }

  lemma EarnedAdds(cfg: Config, a: real, b: real)
    ensures Earned(cfg, a + b) == Earned(cfg, a) + Earned(cfg, b)
  {
  }

  /** Capped refills compose: a level is only ever a function of an earlier level. */
  lemma LevelLater(cfg: Config, m: Table, ip: Ip, t: real, t': real)
    requires t <= t'
    ensures Level(cfg, m, ip, t') == Cap(Level(cfg, m, ip, t) + Earned(cfg, t' - t), cfg.Burst())
  {
    hide Earned;
    EarnedNonNegative(cfg, t' - t);
    if ip in m {
      EarnedAdds(cfg, t - m[ip].lastRefill, t' - t);
      assert (t - m[ip].lastRefill) + (t' - t) == t' - m[ip].lastRefill;
    }
  }

  /** A call sees the level of its address and nothing else, and lowers it by one if it can. */
  lemma StepLevels(cfg: Config, m: Table, c: Call, ip: Ip)
    requires cfg.Limits(c.ip)
    ensures PlainStep(cfg, m, c).1 == (Level(cfg, m, c.ip, c.now) >= 1.0)
    ensures Level(cfg, PlainStep(cfg, m, c).0, ip, c.now)
      == Level(cfg, m, ip, c.now) - if ip == c.ip && Level(cfg, m, ip, c.now) >= 1.0 then 1.0 else 0.0
  {
    var b := BucketOf(cfg, m, c.ip, c.now);
    TouchedLevel(cfg, m, c);
    var level := Level(cfg, m, c.ip, c.now);
    assert level <= cfg.Burst();
    FreshRefill(cfg, c.now, if level >= 1.0 then level - 1.0 else level);
    hide cfg.Limits, BucketOf, Refill, Touched;
    assert PlainStep(cfg, m, c).0[c.ip] == Bucket(if level >= 1.0 then level - 1.0 else level, c.now);
  }

  lemma TouchedLevel(cfg: Config, m: Table, c: Call)
    ensures var level := Level(cfg, m, c.ip, c.now);
      Touched(cfg, BucketOf(cfg, m, c.ip, c.now), c.now)
      == if level >= 1.0 then (Bucket(level - 1.0, c.now), true) else (Bucket(level, c.now), false)
  {
    FreshRefill(cfg, c.now, cfg.Burst());
    hide Refill;
  }

  /** No time, no gain. */
  lemma FreshRefill(cfg: Config, now: real, tokens: real)
    requires tokens <= cfg.Burst()
    ensures Refill(cfg, Bucket(tokens, now), now) == tokens
  {
    EarnedNothing(cfg);
    hide Earned;
    assert now - now == 0.0;
  }

  /** Equal levels give equal answers and stay equal. */
  lemma SameStep(cfg: Config, a: Table, b: Table, t: real, c: Call)
    requires SameLevels(cfg, a, b, t) && t <= c.now
    ensures PlainStep(cfg, a, c).1 == PlainStep(cfg, b, c).1
    ensures SameLevels(cfg, PlainStep(cfg, a, c).0, PlainStep(cfg, b, c).0, c.now)
  {
    hide Level, PlainStep, cfg.Limits;
    forall ip ensures Level(cfg, a, ip, c.now) == Level(cfg, b, ip, c.now) {
      LevelLater(cfg, a, ip, t, c.now);
      LevelLater(cfg, b, ip, t, c.now);
      assert Level(cfg, a, ip, t) == Level(cfg, b, ip, t);
    }
    if cfg.Limits(c.ip) {
      forall ip ensures Level(cfg, PlainStep(cfg, a, c).0, ip, c.now) == Level(cfg, PlainStep(cfg, b, c).0, ip, c.now) {
        StepLevels(cfg, a, c, ip);
        StepLevels(cfg, b, c, ip);
      }
      StepLevels(cfg, a, c, c.ip);
      StepLevels(cfg, b, c, c.ip);
    } else {
      Unlimited(cfg, a, c);
      Unlimited(cfg, b, c);
    }
  }

  lemma Unlimited(cfg: Config, m: Table, c: Call)
    requires !cfg.Limits(c.ip)
    ensures PlainStep(cfg, m, c) == (m, true)
  {
  }

  lemma OrderedTail(start: real, calls: seq<Call>)
    requires calls != [] && Ordered(start, calls)
    ensures start <= calls[0].now && Ordered(calls[0].now, calls[1..])
  {
    forall i | 0 <= i < |calls[1..]|
      ensures calls[0].now <= calls[1..][i].now && (i > 0 ==> calls[1..][i - 1].now <= calls[1..][i].now)
    {
      FirstEarliest(start, calls, i + 1);
      assert calls[1..][i] == calls[i + 1];
      if i > 0 { assert calls[1..][i - 1] == calls[i]; }
    }
  }

  lemma {:induction false} FirstEarliest(start: real, calls: seq<Call>, i: nat)
    requires i < |calls| && Ordered(start, calls)
    ensures calls[0].now <= calls[i].now
  {
    if i > 0 { FirstEarliest(start, calls, i - 1); }
  }

  lemma {:induction false} SameAnswers(cfg: Config, a: Table, b: Table, t: real, calls: seq<Call>)
    requires SameLevels(cfg, a, b, t) && Ordered(t, calls)
    ensures PlainAnswers(cfg, a, calls) == PlainAnswers(cfg, b, calls)
    decreases |calls|
  {
    hide SameLevels, PlainStep, Ordered;
    if calls != [] {
      OrderedTail(t, calls);
      SameStep(cfg, a, b, t, calls[0]);
      SameAnswers(cfg, PlainStep(cfg, a, calls[0]).0, PlainStep(cfg, b, calls[0]).0, calls[0].now, calls[1..]);
    }
  }

  // ---------------------------------------------------------------- sharding and eviction

  /** Seen from any address, the shards and the plain map are at the same level. */
  ghost predicate Agree(cfg: Config, hash: Ip -> nat, shards: seq<Table>, m: Table, t: real)
    requires |shards| == SHARD_COUNT
  {
    forall ip :: Level(cfg, shards[ShardOf(hash, ip)], ip, t) == Level(cfg, m, ip, t)
  }

  /** An evicted bucket was full: forgetting it changes no level. */
  lemma EvictionKeepsLevels(cfg: Config, m: Table, ip: Ip, now: real)
    requires ip in m ==> m[ip].lastRefill <= now
    ensures Level(cfg, Cleaned(cfg, m, now), ip, now) == Level(cfg, m, ip, now)
  {
    hide Earned;
    if ip in m { EarnedNonNegative(cfg, now - m[ip].lastRefill); }
  }

  /** Every bucket lies in the past. */
  ghost predicate Past(shards: seq<Table>, t: real) {
    forall k, ip | 0 <= k < |shards| && ip in shards[k] :: shards[k][ip].lastRefill <= t
  }

  lemma StepAgrees(cfg: Config, hash: Ip -> nat, shards: seq<Table>, m: Table, t: real, c: Call)
    requires |shards| == SHARD_COUNT && Agree(cfg, hash, shards, m, t) && Past(shards, t) && t <= c.now
    ensures Step(cfg, hash, shards, c).1 == PlainStep(cfg, m, c).1
    ensures Agree(cfg, hash, Step(cfg, hash, shards, c).0, PlainStep(cfg, m, c).0, c.now)
    ensures Past(Step(cfg, hash, shards, c).0, c.now)
  {
    hide Level, cfg.Limits, Kept;
    forall ip ensures Level(cfg, shards[ShardOf(hash, ip)], ip, c.now) == Level(cfg, m, ip, c.now) {
      LevelLater(cfg, shards[ShardOf(hash, ip)], ip, t, c.now);
      LevelLater(cfg, m, ip, t, c.now);
      assert Level(cfg, shards[ShardOf(hash, ip)], ip, t) == Level(cfg, m, ip, t);
    }
    if !cfg.Limits(c.ip) { return; }
    var k := ShardOf(hash, c.ip);
    var cleaned := Cleaned(cfg, shards[k], c.now);
    ShardStep(cfg, hash, shards, c);
    var after, plain := Step(cfg, hash, shards, c).0, PlainStep(cfg, m, c).0;
    hide Step, PlainStep, Cleaned;
    forall ip ensures Level(cfg, after[ShardOf(hash, ip)], ip, c.now) == Level(cfg, plain, ip, c.now) {
      StepLevels(cfg, m, c, ip);
      if ShardOf(hash, ip) == k {
        EvictionKeepsLevels(cfg, shards[k], ip, c.now);
        StepLevels(cfg, cleaned, c, ip);
        EvictionKeepsLevels(cfg, shards[k], c.ip, c.now);
      }
    }
    EvictionKeepsLevels(cfg, shards[k], c.ip, c.now);
    StepLevels(cfg, m, c, c.ip);
    StepLevels(cfg, cleaned, c, c.ip);
  }

  /** A call works on one shard as the plain limiter would on it alone, after cleaning. */
  lemma ShardStep(cfg: Config, hash: Ip -> nat, shards: seq<Table>, c: Call)
    requires |shards| == SHARD_COUNT && cfg.Limits(c.ip)
    ensures var k := ShardOf(hash, c.ip);
      var r := PlainStep(cfg, Cleaned(cfg, shards[k], c.now), c);
      Step(cfg, hash, shards, c) == (shards[k := r.0], r.1)
    ensures forall t :: Past(shards, t) && t <= c.now ==> Past(Step(cfg, hash, shards, c).0, c.now)
  {
    hide cfg.Limits, Kept, Refill;
  }

  /** The sharded limiter with its cleanup pass answers every sequence of calls exactly as the
      single map that never forgets. */
  lemma {:induction false} ShardedAnswers(cfg: Config, hash: Ip -> nat, shards: seq<Table>, m: Table, t: real,
                                          calls: seq<Call>)
    requires |shards| == SHARD_COUNT && Agree(cfg, hash, shards, m, t) && Past(shards, t) && Ordered(t, calls)
    ensures Answers(cfg, hash, shards, calls) == PlainAnswers(cfg, m, calls)
    decreases |calls|
  {
    hide Agree, Past, Step, PlainStep, Ordered;
    if calls != [] {
      var c := calls[0];
      OrderedTail(t, calls);
      StepAgrees(cfg, hash, shards, m, t, c);
      ShardedAnswers(cfg, hash, Step(cfg, hash, shards, c).0, PlainStep(cfg, m, c).0, c.now, calls[1..]);
    }
  }

  lemma LimiterRefinesPlain(cfg: Config, hash: Ip -> nat, t: real, calls: seq<Call>)
    requires Ordered(t, calls)
    ensures Answers(cfg, hash, NoShards(), calls) == PlainAnswers(cfg, map[], calls)
  {
    hide Ordered;
    ShardedAnswers(cfg, hash, NoShards(), map[], t, calls);
  }

  // ---------------------------------------------------------------- denied calls

  /** A denied call changes no later answer: it could be left out. */
  lemma {:induction false} DeniedIsInvisible(cfg: Config, m: Table, t: real, before: seq<Call>, c: Call,
                                             later: seq<Call>)
    requires Ordered(t, before + [c] + later)
    requires !PlainStep(cfg, PlainAfter(cfg, m, before), c).1
    ensures PlainAnswers(cfg, m, before + [c] + later)
      == PlainAnswers(cfg, m, before) + [false] + PlainAnswers(cfg, PlainAfter(cfg, m, before), later)
    decreases |before|
  {
    var all := before + [c] + later;
    OrderedTail(t, all);
    hide Ordered, PlainStep;
    if before == [] {
      assert all[0] == c && all[1..] == later;
      DeniedKeepsLevels(cfg, m, c);
      SameAnswers(cfg, PlainStep(cfg, m, c).0, m, c.now, later);
    } else {
      var first := before[0];
      assert all[0] == first && all[1..] == before[1..] + [c] + later;
      DeniedIsInvisible(cfg, PlainStep(cfg, m, first).0, first.now, before[1..], c, later);
    }
  }

  lemma DeniedKeepsLevels(cfg: Config, m: Table, c: Call)
    requires !PlainStep(cfg, m, c).1
    ensures SameLevels(cfg, PlainStep(cfg, m, c).0, m, c.now)
  {
    hide Level;
    forall ip ensures Level(cfg, PlainStep(cfg, m, c).0, ip, c.now) == Level(cfg, m, ip, c.now) {
      if cfg.Limits(c.ip) { StepLevels(cfg, m, c, ip); }
    }
  }

  // ---------------------------------------------------------------- the rate bound

  /** How many calls of `ip` were admitted. */
  function Admitted(calls: seq<Call>, answers: seq<bool>, ip: Ip): nat
    requires |calls| == |answers|
  {
    if calls == [] then 0
    else (if calls[0].ip == ip && answers[0] then 1 else 0) + Admitted(calls[1..], answers[1..], ip)
  }

  /** From any state, what is admitted is paid for by the level at the start and the refill. */
  lemma {:induction false} AdmittedBound(cfg: Config, m: Table, t: real, calls: seq<Call>, ip: Ip)
    requires cfg.Limits(ip) && Ordered(t, calls)
    requires 0.0 <= Level(cfg, m, ip, t)
    ensures calls != [] ==>
      Admitted(calls, PlainAnswers(cfg, m, calls), ip) as real
      <= Level(cfg, m, ip, t) + Earned(cfg, calls[|calls| - 1].now - t)
    decreases |calls|
  {
    hide Level, PlainStep, Ordered, cfg.Limits, Earned;
    if calls != [] {
      var c, rest := calls[0], calls[1..];
      var next := PlainStep(cfg, m, c);
      OrderedTail(t, calls);
      LevelLater(cfg, m, ip, t, c.now);
      EarnedNonNegative(cfg, c.now - t);
      SpendLevel(cfg, m, t, c, ip);
      AdmittedBound(cfg, next.0, c.now, rest, ip);
      if rest != [] {
        assert rest[|rest| - 1] == calls[|calls| - 1];
        EarnedAdds(cfg, c.now - t, rest[|rest| - 1].now - c.now);
      }
    }
  }

  /** A call costs its own address one token if admitted, and no other address anything. */
  lemma SpendLevel(cfg: Config, m: Table, t: real, c: Call, ip: Ip)
    requires cfg.Limits(ip) && t <= c.now && 0.0 <= Level(cfg, m, ip, t)
    ensures 0.0 <= Level(cfg, PlainStep(cfg, m, c).0, ip, c.now)
    ensures Level(cfg, PlainStep(cfg, m, c).0, ip, c.now) + (if c.ip == ip && PlainStep(cfg, m, c).1 then 1.0 else 0.0)
      <= Level(cfg, m, ip, t) + Earned(cfg, c.now - t)
  {
    hide Level, cfg.Limits, Earned;
    LevelLater(cfg, m, ip, t, c.now);
    EarnedNonNegative(cfg, c.now - t);
    if cfg.Limits(c.ip) {
      StepLevels(cfg, m, c, ip);
      if c.ip != ip { StepLevels(cfg, m, c, c.ip); }
    }
  }

  // ---------------------------------------------------------------- any stretch of any run

  lemma {:induction false} PlainSplit(cfg: Config, m: Table, a: seq<Call>, b: seq<Call>)
    ensures PlainAnswers(cfg, m, a + b) == PlainAnswers(cfg, m, a) + PlainAnswers(cfg, PlainAfter(cfg, m, a), b)
    decreases |a|
  {
    hide PlainStep;
    if a == [] {
      assert a + b == b;
    } else {
      assert (a + b)[1..] == a[1..] + b;
      PlainSplit(cfg, PlainStep(cfg, m, a[0]).0, a[1..], b);
    }
  }

  /** Levels never fall below zero. */
  lemma {:induction false} LevelsNonNegative(cfg: Config, m: Table, t: real, calls: seq<Call>, now: real, ip: Ip)
    requires cfg.Limits(ip) && Ordered(t, calls) && 0.0 <= Level(cfg, m, ip, t)
    requires t <= now && (calls != [] ==> calls[|calls| - 1].now <= now)
    ensures 0.0 <= Level(cfg, PlainAfter(cfg, m, calls), ip, now) <= cfg.Burst()
    decreases |calls|
  {
    LevelAtMostBurst(cfg, PlainAfter(cfg, m, calls), ip, now);
    hide Level, PlainStep, Ordered, cfg.Limits, Earned;
    if calls == [] {
      LevelLater(cfg, m, ip, t, now);
      EarnedNonNegative(cfg, now - t);
    } else {
      var c, rest := calls[0], calls[1..];
      OrderedTail(t, calls);
      SpendLevel(cfg, m, t, c, ip);
      if rest == [] {
        assert c.now <= now;
      } else {
        assert rest[|rest| - 1] == calls[|calls| - 1];
        OrderedEnd(c.now, rest);
      }
      LevelsNonNegative(cfg, PlainStep(cfg, m, c).0, c.now, rest, now, ip);
    }
  }

  lemma OrderedEnd(start: real, calls: seq<Call>)
    requires calls != [] && Ordered(start, calls)
    ensures start <= calls[|calls| - 1].now
  {
  }

  lemma LevelAtMostBurst(cfg: Config, m: Table, ip: Ip, t: real)
    ensures Level(cfg, m, ip, t) <= cfg.Burst()
  {
    hide Earned;
  }

  lemma OrderedSlice(start: real, calls: seq<Call>, i: nat, j: nat)
    requires Ordered(start, calls) && i < j <= |calls|
    ensures Ordered(start, calls[..i]) && Ordered(calls[i].now, calls[i..j])
    ensures start <= calls[i].now && (i > 0 ==> calls[..i][i - 1].now <= calls[i].now)
  {
    var s := calls[i..j];
    forall k | 0 <= k < |s| ensures calls[i].now <= s[k].now && (k > 0 ==> s[k - 1].now <= s[k].now) {
      Later(start, calls, i, i + k);
      assert s[k] == calls[i + k];
      if k > 0 { assert s[k - 1] == calls[i + k - 1]; }
    }
  }

  lemma {:induction false} Later(start: real, calls: seq<Call>, i: nat, k: nat)
    requires Ordered(start, calls) && i <= k < |calls|
    ensures calls[i].now <= calls[k].now
    decreases k
  {
    if i < k { Later(start, calls, i, k - 1); }
  }

  /** In every run with a clock that does not go back, in every stretch of it, the limiter
      admits at most burst + rate * time calls of one address. */
  lemma WindowBound(cfg: Config, hash: Ip -> nat, t: real, calls: seq<Call>, i: nat, j: nat, ip: Ip)
    requires cfg.enabled && (forall w | w in cfg.whitelist :: !(w <= ip))
    requires Ordered(t, calls) && i < j <= |calls|
    ensures Admitted(calls[i..j], Answers(cfg, hash, NoShards(), calls)[i..j], ip) as real
      <= cfg.burstSize as real + cfg.requestsPerSec as real * (calls[j - 1].now - calls[i].now)
  {
    hide Earned, Ordered, Answers, Admitted, cfg.Limits;
    LimitedIff(cfg, ip);
    WindowEarned(cfg, hash, t, calls, i, j, ip);
    InNumbers(cfg, Admitted(calls[i..j], Answers(cfg, hash, NoShards(), calls)[i..j], ip) as real,
              calls[j - 1].now - calls[i].now);
  }

  lemma WindowEarned(cfg: Config, hash: Ip -> nat, t: real, calls: seq<Call>, i: nat, j: nat, ip: Ip)
    requires cfg.Limits(ip) && Ordered(t, calls) && i < j <= |calls|
    ensures Admitted(calls[i..j], Answers(cfg, hash, NoShards(), calls)[i..j], ip) as real
      <= cfg.Burst() + Earned(cfg, calls[j - 1].now - calls[i].now)
  {
    hide Level, Ordered, cfg.Limits, Answers, PlainAnswers, PlainAfter;
    var start, m := calls[i].now, PlainAfter(cfg, map[], calls[..i]);
    var stretch := calls[i..j];
    LimiterRefinesPlain(cfg, hash, t, calls);
    WindowAnswers(cfg, calls, i, j);
    OrderedSlice(t, calls, i, j);
    LevelOfNew(cfg, ip, t);
    LevelsNonNegative(cfg, map[], t, calls[..i], start, ip);
    AdmittedBound(cfg, m, start, stretch, ip);
    assert stretch[|stretch| - 1] == calls[j - 1];
  }

  lemma InNumbers(cfg: Config, x: real, elapsed: real)
    requires x <= cfg.Burst() + Earned(cfg, elapsed)
    ensures x <= cfg.burstSize as real + cfg.requestsPerSec as real * elapsed
  {
  }

  /** Who is limited, and what time is worth. */
  lemma LimitedIff(cfg: Config, ip: Ip)
    ensures cfg.Limits(ip) <==> cfg.enabled && forall w | w in cfg.whitelist :: !(w <= ip)
  {
    if cfg.Whitelisted(ip) {
      var i :| 0 <= i < |cfg.whitelist| && (cfg.whitelist[i] == ip || StartsWith(ip, cfg.whitelist[i]));
      var w := cfg.whitelist[i];
      assert w in cfg.whitelist && w <= ip;
    }
    if !cfg.Whitelisted(ip) {
      forall w | w in cfg.whitelist ensures !(w <= ip) {
        var i :| 0 <= i < |cfg.whitelist| && cfg.whitelist[i] == w;
        assert !StartsWith(ip, cfg.whitelist[i]);
      }
    }
  }

  lemma EarnedIs(cfg: Config, elapsed: real)
    ensures Earned(cfg, elapsed) == cfg.requestsPerSec as real * elapsed && cfg.Burst() == cfg.burstSize as real
  {
  }

  lemma LevelOfNew(cfg: Config, ip: Ip, t: real)
    ensures 0.0 <= Level(cfg, map[], ip, t)
  {
  }

  /** The answers of a stretch are those of the plain limiter from the state before it. */
  lemma WindowAnswers(cfg: Config, calls: seq<Call>, i: nat, j: nat)
    requires i <= j <= |calls|
    ensures PlainAnswers(cfg, map[], calls)[i..j]
      == PlainAnswers(cfg, PlainAfter(cfg, map[], calls[..i]), calls[i..j])
  {
    hide PlainAnswers, PlainAfter;
    var a, b, c := calls[..i], calls[i..j], calls[j..];
    assert calls == a + (b + c);
    PlainSplit(cfg, map[], a, b + c);
    PlainSplit(cfg, PlainAfter(cfg, map[], a), b, c);
  }

  /** In the limiter itself: a denied call could be left out of the run. */
  lemma DeniedCallIsFree(cfg: Config, hash: Ip -> nat, t: real, before: seq<Call>, c: Call, later: seq<Call>)
    requires Ordered(t, before + [c] + later)
    requires !Answers(cfg, hash, NoShards(), before + [c] + later)[|before|]
    ensures var without := Answers(cfg, hash, NoShards(), before + later);
      Answers(cfg, hash, NoShards(), before + [c] + later) == without[..|before|] + [false] + without[|before|..]
  {
    var all := before + [c] + later;
    LimiterRefinesPlain(cfg, hash, t, all);
    OrderedWithout(t, before, c, later);
    LimiterRefinesPlain(cfg, hash, t, before + later);
    PlainSplit(cfg, map[], before, later);
    PlainSplit(cfg, map[], before, [c] + later);
    Assoc(before, [c], later);
    var m := PlainAfter(cfg, map[], before);
    assert PlainAnswers(cfg, m, [c] + later)[0] == PlainStep(cfg, m, c).1;
    hide Answers, PlainAnswers, PlainAfter, PlainStep, Ordered;
    DeniedIsInvisible(cfg, map[], t, before, c, later);
  }

  lemma OrderedWithout(t: real, before: seq<Call>, c: Call, later: seq<Call>)
    requires Ordered(t, before + [c] + later)
    ensures Ordered(t, before + later)
  {
    var all, some := before + [c] + later, before + later;
    forall i | 0 <= i < |some| ensures t <= some[i].now && (i > 0 ==> some[i - 1].now <= some[i].now) {
      var k := if i < |before| then i else i + 1;
      assert some[i] == all[k];
      if i > 0 {
        assert some[i - 1] == all[if i - 1 < |before| then i - 1 else i];
        Later(t, all, if i - 1 < |before| then i - 1 else i, k);
      }
    }
  }

  // ---------------------------------------------------------------- what cleanup removes

  /** A bucket after a call is never full, unless the burst size is zero. */
  predicate Drained(cfg: Config, b: Bucket) {
    if cfg.burstSize == 0 then b.tokens == 0.0 else b.tokens < cfg.Burst()
  }

  ghost predicate AllDrained(cfg: Config, shards: seq<Table>) {
    forall k, ip | 0 <= k < |shards| && ip in shards[k] :: Drained(cfg, shards[k][ip])
  }

  lemma StepDrains(cfg: Config, hash: Ip -> nat, shards: seq<Table>, t: real, c: Call)
    requires |shards| == SHARD_COUNT && AllDrained(cfg, shards) && Past(shards, t) && t <= c.now
    ensures AllDrained(cfg, Step(cfg, hash, shards, c).0) && Past(Step(cfg, hash, shards, c).0, c.now)
  {
    hide Earned, cfg.Limits;
    if cfg.Limits(c.ip) {
      var k := ShardOf(hash, c.ip);
      ShardStep(cfg, hash, shards, c);
      var b := BucketOf(cfg, Cleaned(cfg, shards[k], c.now), c.ip, c.now);
      EarnedNonNegative(cfg, c.now - b.lastRefill);
      if cfg.burstSize == 0 { EarnedNothing(cfg); }
      assert Drained(cfg, Touched(cfg, b, c.now).0);
      hide Touched, Refill, Drained, Kept;
    }
  }

  lemma {:induction false} AfterDrained(cfg: Config, hash: Ip -> nat, shards: seq<Table>, t: real, calls: seq<Call>)
    requires |shards| == SHARD_COUNT && AllDrained(cfg, shards) && Past(shards, t) && Ordered(t, calls)
    ensures AllDrained(cfg, After(cfg, hash, shards, calls))
    decreases |calls|
  {
    hide AllDrained, Past, Step, Ordered;
    if calls != [] {
      OrderedTail(t, calls);
      StepDrains(cfg, hash, shards, t, calls[0]);
      AfterDrained(cfg, hash, Step(cfg, hash, shards, calls[0]).0, calls[0].now, calls[1..]);
    }
  }

  /** In every state a run can reach, the cleanup pass keeps a bucket if and only if the burst
      size is positive or the bucket was used in the last 60 seconds.  With a positive burst
      size it removes nothing, and the maps only grow. */
  lemma CleanupKeepsIff(cfg: Config, hash: Ip -> nat, t: real, calls: seq<Call>, k: nat, ip: Ip, now: real)
    requires Ordered(t, calls) && k < SHARD_COUNT
    requires ip in After(cfg, hash, NoShards(), calls)[k]
    ensures var b := After(cfg, hash, NoShards(), calls)[k][ip];
      Kept(cfg, b, now) <==> cfg.burstSize > 0 || (now - b.lastRefill).Floor < CLEANUP_IDLE_SECS
  {
    AfterDrained(cfg, hash, NoShards(), t, calls);
    assert Drained(cfg, After(cfg, hash, NoShards(), calls)[k][ip]);
    hide After;
  }
}
