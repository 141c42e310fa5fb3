/** What the limiter does for one address, call by call and in numbers. */
module RateLimitLaws {
  import opened Text
  import opened RateLimit

  /** The limiter is on and no whitelist entry is the address or the start of it. */
  predicate Limited(cfg: Config, ip: Ip) {
    cfg.enabled && forall w | w in cfg.whitelist :: !(w <= ip)
  }

  predicate Uncalled(calls: seq<Call>, ip: Ip) { forall c | c in calls :: c.ip != ip }

  function Start(cfg: Config, hash: Ip -> nat, calls: seq<Call>): (r: seq<Table>)
    ensures |r| == SHARD_COUNT
  {
    After(cfg, hash, NoShards(), calls)
  }

  /** The level of an address in its shard. */
  function ShardLevel(cfg: Config, hash: Ip -> nat, shards: seq<Table>, ip: Ip, t: real): real
    requires |shards| == SHARD_COUNT
  {
    Level(cfg, shards[ShardOf(hash, ip)], ip, t)
  }

  // ---------------------------------------------------------------- runs

  lemma {:induction false} AfterSplit(cfg: Config, hash: Ip -> nat, shards: seq<Table>, a: seq<Call>, b: seq<Call>)
    requires |shards| == SHARD_COUNT
    ensures After(cfg, hash, shards, a + b) == After(cfg, hash, After(cfg, hash, shards, a), b)
    ensures Answers(cfg, hash, shards, a + b)
      == Answers(cfg, hash, shards, a) + Answers(cfg, hash, After(cfg, hash, shards, a), b)
    decreases |a|
  {
    hide Step;
    if a == [] {
      assert a + b == b;
    } else {
      assert (a + b)[1..] == a[1..] + b;
      AfterSplit(cfg, hash, Step(cfg, hash, shards, a[0]).0, a[1..], b);
    }
  }

  lemma One(cfg: Config, hash: Ip -> nat, shards: seq<Table>, c: Call)
    requires |shards| == SHARD_COUNT
    ensures After(cfg, hash, shards, [c]) == Step(cfg, hash, shards, c).0
    ensures Answers(cfg, hash, shards, [c]) == [Step(cfg, hash, shards, c).1]
  {
    hide Step;
    assert [c][1..] == [];
  }

  lemma {:induction false} PastAfter(cfg: Config, hash: Ip -> nat, shards: seq<Table>, t: real, calls: seq<Call>,
                                     now: real)
    requires |shards| == SHARD_COUNT && Past(shards, t) && Ordered(t, calls)
    requires t <= now && (calls != [] ==> calls[|calls| - 1].now <= now)
    ensures Past(After(cfg, hash, shards, calls), now)
    decreases |calls|
  {
    hide Step, Ordered;
    if calls != [] {
      var c, rest := calls[0], calls[1..];
      OrderedTail(t, calls);
      StepPast(cfg, hash, shards, t, c);
      if rest != [] { assert rest[|rest| - 1] == calls[|calls| - 1]; OrderedEnd(c.now, rest); }
      PastAfter(cfg, hash, Step(cfg, hash, shards, c).0, c.now, rest, now);
    }
  }

  lemma StepPast(cfg: Config, hash: Ip -> nat, shards: seq<Table>, t: real, c: Call)
    requires |shards| == SHARD_COUNT && Past(shards, t) && t <= c.now
    ensures Past(Step(cfg, hash, shards, c).0, c.now)
  {
    hide cfg.Limits, Kept, Refill;
  }

  // ---------------------------------------------------------------- one call on the shards

  /** A call of the address itself: admitted if and only if the level is at least one, which it
      then costs. */
  lemma OwnCall(cfg: Config, hash: Ip -> nat, shards: seq<Table>, c: Call)
    requires |shards| == SHARD_COUNT && Past(shards, c.now) && cfg.Limits(c.ip)
    ensures var level := ShardLevel(cfg, hash, shards, c.ip, c.now);
      var after := Step(cfg, hash, shards, c).0;
      && Step(cfg, hash, shards, c).1 == (level >= 1.0)
      && c.ip in after[ShardOf(hash, c.ip)]
      && after[ShardOf(hash, c.ip)][c.ip].tokens == level - (if level >= 1.0 then 1.0 else 0.0)
      && ShardLevel(cfg, hash, after, c.ip, c.now) == level - (if level >= 1.0 then 1.0 else 0.0)
  {
    hide Level, cfg.Limits, Kept;
    var k := ShardOf(hash, c.ip);
    var m := Cleaned(cfg, shards[k], c.now);
    ShardStep(cfg, hash, shards, c);
    hide Step, Cleaned;
    EvictionKeepsLevels(cfg, shards[k], c.ip, c.now);
    StepLevels(cfg, m, c, c.ip);
    TouchedLevel(cfg, m, c);
  }

  lemma OtherCall(cfg: Config, hash: Ip -> nat, shards: seq<Table>, c: Call, ip: Ip)
    requires |shards| == SHARD_COUNT && Past(shards, c.now) && c.ip != ip
    ensures ShardLevel(cfg, hash, Step(cfg, hash, shards, c).0, ip, c.now) == ShardLevel(cfg, hash, shards, ip, c.now)
  {
    hide Level, cfg.Limits, Kept;
    if cfg.Limits(c.ip) {
      var k := ShardOf(hash, c.ip);
      var m := Cleaned(cfg, shards[k], c.now);
      ShardStep(cfg, hash, shards, c);
      hide Step, Cleaned, PlainStep;
      if ShardOf(hash, ip) == k {
        EvictionKeepsLevels(cfg, shards[k], ip, c.now);
        StepLevels(cfg, m, c, ip);
      }
    }
  }

  /** Calls of other addresses do not touch a level. */
  lemma {:induction false} UncalledLevel(cfg: Config, hash: Ip -> nat, shards: seq<Table>, t: real, calls: seq<Call>,
                                         ip: Ip, now: real)
    requires |shards| == SHARD_COUNT && Past(shards, t) && Ordered(t, calls) && Uncalled(calls, ip)
    requires t <= now && (calls != [] ==> calls[|calls| - 1].now <= now)
    ensures ShardLevel(cfg, hash, After(cfg, hash, shards, calls), ip, now) == ShardLevel(cfg, hash, shards, ip, now)
    decreases |calls|
  {
    hide Level, Step, Ordered, Past, Earned;
    if calls != [] {
      var c, rest := calls[0], calls[1..];
      var next := Step(cfg, hash, shards, c).0;
      assert c in calls && (forall x | x in rest :: x in calls);
      OrderedTail(t, calls);
      StepPast(cfg, hash, shards, t, c);
      PastLater(shards, t, c.now);
      OtherCall(cfg, hash, shards, c, ip);
      if rest != [] { assert rest[|rest| - 1] == calls[|calls| - 1]; OrderedEnd(c.now, rest); }
      LevelLater(cfg, shards[ShardOf(hash, ip)], ip, c.now, now);
      LevelLater(cfg, next[ShardOf(hash, ip)], ip, c.now, now);
      UncalledLevel(cfg, hash, next, c.now, rest, ip, now);
    }
  }

  lemma PastLater(shards: seq<Table>, t: real, t': real)
    requires Past(shards, t) && t <= t'
    ensures Past(shards, t')
  {
  }

  // ---------------------------------------------------------------- in numbers

  function Lesser(a: real, b: real): real { if a <= b then a else b }

  /** What is left in the bucket of an address after a run. */
  function TokensLeft(cfg: Config, hash: Ip -> nat, calls: seq<Call>, ip: Ip): real
    requires ip in Start(cfg, hash, calls)[ShardOf(hash, ip)]
  {
    Start(cfg, hash, calls)[ShardOf(hash, ip)][ip].tokens
  }

  /** The last call of `run` is answered `yes` when the bucket holds `tokens` and costs one. */
  predicate Pays(cfg: Config, hash: Ip -> nat, run: seq<Call>, ip: Ip, tokens: real)
    requires run != []
  {
    && Answers(cfg, hash, NoShards(), run)[|run| - 1] == (tokens >= 1.0)
    && ip in Start(cfg, hash, run)[ShardOf(hash, ip)]
    && TokensLeft(cfg, hash, run, ip) == if tokens >= 1.0 then tokens - 1.0 else tokens
  }

  lemma LastCall(cfg: Config, hash: Ip -> nat, t: real, before: seq<Call>, c: Call)
    requires Limited(cfg, c.ip) && Ordered(t, before + [c])
    ensures Pays(cfg, hash, before + [c], c.ip, ShardLevel(cfg, hash, Start(cfg, hash, before), c.ip, c.now))
    ensures ShardLevel(cfg, hash, Start(cfg, hash, before + [c]), c.ip, c.now)
      == TokensLeft(cfg, hash, before + [c], c.ip)
  {
    hide Step, Level, cfg.Limits, After, Answers;
    var run := before + [c];
    LimitedIff(cfg, c.ip);
    AfterSplit(cfg, hash, NoShards(), before, [c]);
    One(cfg, hash, Start(cfg, hash, before), c);
    OrderedSlice(t, run, |before|, |run|);
    assert run[..|before|] == before && run[|before|] == c;
    PastAfter(cfg, hash, NoShards(), t, before, c.now);
    hide Ordered, Past;
    OwnCall(cfg, hash, Start(cfg, hash, before), c);
  }

  lemma OrderedParts(t: real, before: seq<Call>, c: Call, between: seq<Call>, c': Call)
    requires Ordered(t, before + [c] + between + [c'])
    ensures Ordered(t, before + [c]) && Ordered(c.now, between) && t <= c.now <= c'.now
    ensures between != [] ==> between[|between| - 1].now <= c'.now
  {
    var run, n := before + [c] + between + [c'], |before|;
    assert run[n] == c && run[n + 1 + |between|] == c';
    Later(t, run, n, n + 1 + |between|);
    forall i | 0 <= i <= n ensures run[i] == (before + [c])[i] {}
    forall i | 0 <= i < |between| ensures c.now <= between[i].now && between[i] == run[n + 1 + i] {
      Later(t, run, n, n + 1 + i);
    }
    if between != [] { Later(t, run, n + |between|, n + 1 + |between|); }
  }

  /** The first call of a limited address finds the burst size, and pays one token if it can. */
  lemma FirstCall(cfg: Config, hash: Ip -> nat, t: real, before: seq<Call>, c: Call)
    requires Limited(cfg, c.ip) && Ordered(t, before + [c]) && Uncalled(before, c.ip)
    ensures Pays(cfg, hash, before + [c], c.ip, cfg.burstSize as real)
  {
    var run := before + [c];
    LastCall(cfg, hash, t, before, c);
    OrderedSlice(t, run, |before|, |run|);
    assert run[..|before|] == before && run[|before|] == c;
    hide After, Answers, Pays, Ordered;
    UncalledLevel(cfg, hash, NoShards(), t, before, c.ip, c.now);
  }

  /** A call `d` seconds after the last one of a limited address, whatever other addresses do in
      between, finds what that call left and the rate times `d`, but not more than the burst
      size; and pays one token if it can. */
  lemma NextCall(cfg: Config, hash: Ip -> nat, t: real, before: seq<Call>, c: Call, between: seq<Call>, d: real)
    requires Limited(cfg, c.ip) && Uncalled(between, c.ip)
    requires Ordered(t, before + [c] + between + [Call(c.ip, c.now + d)])
    ensures c.ip in Start(cfg, hash, before + [c])[ShardOf(hash, c.ip)]
    ensures var tokens := TokensLeft(cfg, hash, before + [c], c.ip);
      Pays(cfg, hash, before + [c] + between + [Call(c.ip, c.now + d)], c.ip,
           Lesser(tokens + d * cfg.requestsPerSec as real, cfg.burstSize as real))
  {
    var first, second := before + [c], before + [c] + between;
    var c' := Call(c.ip, c.now + d);
    OrderedParts(t, before, c, between, c');
    LastCall(cfg, hash, t, before, c);
    LastCall(cfg, hash, t, second, c');
    AfterSplit(cfg, hash, NoShards(), first, between);
    PastAfter(cfg, hash, NoShards(), t, first, c.now);
    hide After, Answers, Pays, Ordered, Past, Level;
    UncalledLevel(cfg, hash, Start(cfg, hash, first), c.now, between, c.ip, c'.now);
    LevelLater(cfg, Start(cfg, hash, first)[ShardOf(hash, c.ip)], c.ip, c.now, c'.now);
    EarnedIs(cfg, d);
  }

  /** A call that is not limited is admitted and leaves no trace. */
  lemma Unmetered(cfg: Config, hash: Ip -> nat, before: seq<Call>, c: Call)
    requires !Limited(cfg, c.ip)
    ensures Answers(cfg, hash, NoShards(), before + [c])[|before|]
    ensures Start(cfg, hash, before + [c]) == Start(cfg, hash, before)
  {
    LimitedIff(cfg, c.ip);
    AfterSplit(cfg, hash, NoShards(), before, [c]);
    One(cfg, hash, Start(cfg, hash, before), c);
    hide After, Answers;
  }

  /** Another address's call removes a bucket if and only if it is limited, falls into the same
      shard, finds more than 10000 buckets there, and the bucket is full and unused for 60 seconds. */
  lemma CleanedIff(cfg: Config, hash: Ip -> nat, shards: seq<Table>, c: Call, ip: Ip)
    requires |shards| == SHARD_COUNT && c.ip != ip && ip in shards[hash(ip) % 64]
    ensures var m := shards[hash(ip) % 64];
      ip !in Step(cfg, hash, shards, c).0[hash(ip) % 64] <==>
        && Limited(cfg, c.ip) && hash(c.ip) % 64 == hash(ip) % 64
        && |m| > 10_000 && m[ip].tokens >= cfg.burstSize as real && (c.now - m[ip].lastRefill).Floor >= 60
  {
    hide Refill;
    LimitedIff(cfg, c.ip);
    hide cfg.Limits;
    var k := ShardOf(hash, c.ip);
    if cfg.Limits(c.ip) { ShardStep(cfg, hash, shards, c); }
  }
}
