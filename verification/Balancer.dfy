/** The load balancer of halo/src/balancer.rs and the shares its strategies give out. */
module Balancer {
  import opened Text

  /** A 64-bit counter wraps around here. */
  const WORD: nat := 0x1_0000_0000_0000_0000
  const LCG_MUL: nat := 6_364_136_223_846_793_005
  const LCG_ADD: nat := 1_442_695_040_888_963_407

  datatype Strategy = RoundRobin | LeastConnections | IpHash | Random

  // ---------------------------------------------------------------- what a pick is

  /** The indices of the healthy upstreams, in order. */
  function Healthy(flags: seq<bool>): (r: seq<nat>)
    ensures |r| <= |flags|
    ensures forall i :: i in r <==> 0 <= i < |flags| && flags[i]
    ensures forall i, j | 0 <= i < j < |r| :: r[i] < r[j]
  {
    if flags == [] then []
    else
      var n := |flags| - 1;
      var r := Healthy(flags[..n]);
      assert forall k | 0 <= k < |r| :: r[k] in r;
      r + if flags[n] then [n] else []
  }

  function Mod(a: nat, m: nat): (r: nat)
    requires m > 0
    ensures r < m
  {
    a % m
  }

  function Scramble(seed: nat): (r: nat)
    ensures r < WORD
  {
    Mod(seed * LCG_MUL + LCG_ADD, WORD)
  }

  /** The first of `candidates` with the fewest active connections. */
  function FewestOf(candidates: seq<nat>, active: seq<int>): (r: nat)
    requires candidates != [] && forall k | 0 <= k < |candidates| :: candidates[k] < |active|
    ensures r in candidates && r < |active|
    ensures forall k | 0 <= k < |candidates| :: active[r] <= active[candidates[k]]
    ensures exists k ::
      && 0 <= k < |candidates| && candidates[k] == r
      && forall j | 0 <= j < k :: active[r] < active[candidates[j]]
  {
    var n := |candidates| - 1;
    if n == 0 then candidates[0]
    else
      var best := FewestOf(candidates[..n], active);
      assert forall k | 0 <= k < n :: candidates[..n][k] == candidates[k];
      if active[candidates[n]] < active[best] then candidates[n] else best
  }

  /** Which entry of the healthy list a strategy takes. */
  function Slot(strategy: Strategy, h: nat, counter: nat, ipHash: nat): (r: nat)
    requires h > 0
    ensures r < h
  {
    match strategy
    case RoundRobin => Mod(counter, h)
    case IpHash => Mod(ipHash, h)
    case Random => Mod(Scramble(counter), h)
    case LeastConnections => 0
  }

  /** The strategy's choice from a non-empty healthy list. */
  function ChoiceFrom(strategy: Strategy, hs: seq<nat>, active: seq<int>, counter: nat, ipHash: nat): (r: nat)
    requires hs != [] && forall k | 0 <= k < |hs| :: hs[k] < |active|
    ensures r in hs
    ensures strategy == LeastConnections ==> forall k | 0 <= k < |hs| :: active[r] <= active[hs[k]]
  {
    if strategy == LeastConnections then FewestOf(hs, active) else hs[Slot(strategy, |hs|, counter, ipHash)]
  }

  function Choice(strategy: Strategy, flags: seq<bool>, active: seq<int>, counter: nat, ipHash: nat): (r: Option<nat>)
    requires |active| == |flags|
    ensures r.None? <==> forall i | 0 <= i < |flags| :: !flags[i]
    ensures r.Some? ==> r.value < |flags| && flags[r.value]
    ensures r.Some? && strategy == LeastConnections ==>
      forall i | 0 <= i < |flags| && flags[i] :: active[r.value] <= active[i]
  {
    var hs := Healthy(flags);
    if hs == [] then assert forall i | 0 <= i < |flags| :: i !in hs; None
    else
      assert forall k | 0 <= k < |hs| :: hs[k] in hs;
      assert forall i | 0 <= i < |flags| && flags[i] :: i in hs;
      Some(ChoiceFrom(strategy, hs, active, counter, ipHash))
  }

  /** The counter moves for two strategies, and only if there is something to choose from. */
  function Advanced(strategy: Strategy, flags: seq<bool>, counter: nat): nat {
    if |flags| > 1 && Healthy(flags) != [] && (strategy == RoundRobin || strategy == Random)
    then Mod(counter + 1, WORD) else counter
  }

  /** With every upstream healthy the list is the identity. */
  lemma {:induction false} AllHealthy(flags: seq<bool>)
    requires forall i | 0 <= i < |flags| :: flags[i]
    ensures Healthy(flags) == seq(|flags|, i => i)
  {
    if flags != [] { AllHealthy(flags[..|flags| - 1]); }
  }

  lemma HealthyNone()
    ensures Healthy([]) == []
  {
  }

  lemma HealthyStep(flags: seq<bool>, i: nat)
    requires i < |flags|
    ensures Healthy(flags[..i + 1]) == Healthy(flags[..i]) + if flags[i] then [i] else []
  {
    assert flags[..i + 1][..i] == flags[..i];
  }

  lemma FewestOne(candidates: seq<nat>, active: seq<int>)
    requires candidates != [] && candidates[0] < |active|
    ensures FewestOf(candidates[..1], active) == candidates[0]
  {
  }

  lemma FewestStep(candidates: seq<nat>, active: seq<int>, i: nat)
    requires 0 < i < |candidates| && forall k | 0 <= k < |candidates| :: candidates[k] < |active|
    ensures var best := FewestOf(candidates[..i], active);
      FewestOf(candidates[..i + 1], active) == if active[candidates[i]] < active[best] then candidates[i] else best
  {
    assert candidates[..i + 1][..i] == candidates[..i];
  }

  /** A single upstream is chosen whenever it is healthy, whatever the strategy. */
  lemma OneUpstream(strategy: Strategy, flags: seq<bool>, active: seq<int>, counter: nat, ipHash: nat)
    requires |flags| == 1 == |active|
    ensures Healthy(flags) == if flags[0] then [0] else []
    ensures Choice(strategy, flags, active, counter, ipHash) == if flags[0] then Some(0) else None
  {
    assert flags[..0] == [] && Healthy([]) == [];
    hide Scramble, Mod;
  }

  class Balancer {
    const upstreams: seq<string>
    const healthy: array<bool>
    const active: array<int>
    var counter: nat

    ghost predicate Valid()
      reads this
    {
      healthy.Length == |upstreams| && active.Length == |upstreams| && counter < WORD
    }

    constructor (upstreams: seq<string>)
      ensures Valid() && fresh(healthy) && fresh(active) && counter == 0
      ensures this.upstreams == upstreams && forall i | 0 <= i < |upstreams| :: healthy[i] && active[i] == 0
    {
      this.upstreams := upstreams;
      healthy := new bool[|upstreams|](_ => true);
      active := new int[|upstreams|](_ => 0);
      counter := 0;
    }

    method FetchAdd() returns (n: nat)
      requires Valid()
      modifies this`counter
      ensures Valid() && n == old(counter) && counter == Mod(old(counter) + 1, WORD)
    {
      n := counter;
      counter := Mod(counter + 1, WORD);
    }

    /** One pass over the health flags. */
    method Collect() returns (hs: seq<nat>, allHealthy: bool)
      requires Valid()
      ensures hs == Healthy(healthy[..]) && allHealthy == forall j | 0 <= j < healthy.Length :: healthy[j]
    {
      hide Healthy;
      ghost var flags := healthy[..];
      HealthyNone();
      assert flags[..0] == [];
      hs, allHealthy := [], true;
      var i := 0;
      while i < |upstreams|
        invariant 0 <= i <= |upstreams| && hs == Healthy(flags[..i])
        invariant allHealthy == forall j | 0 <= j < i :: flags[j]
      {
        HealthyStep(flags, i);
        if healthy[i] { hs := hs + [i]; } else { allHealthy := false; }
        i := i + 1;
      }
      assert flags[..i] == flags;
      assert allHealthy == forall j | 0 <= j < healthy.Length :: healthy[j] by {
        assert forall j | 0 <= j < healthy.Length :: healthy[j] == flags[j];
      }
    }

    method Pick(strategy: Strategy, ipHash: nat) returns (r: Option<nat>)
      requires Valid()
      modifies this`counter
      ensures Valid()
      ensures r == Choice(strategy, healthy[..], active[..], old(counter), ipHash)
      ensures counter == Advanced(strategy, healthy[..], old(counter))
    {
      hide Healthy, ChoiceFrom, Mod;
      ghost var flags := healthy[..];
      var len := |upstreams|;
      if len == 0 { return None; }
      if len == 1 {
        OneUpstream(strategy, flags, active[..], counter, ipHash);
        if healthy[0] { return Some(0); }
        return None;
      }
      var hs, allHealthy := Collect();
      if hs == [] { return None; }
      assert forall k | 0 <= k < |hs| :: hs[k] in hs;
      if allHealthy { AllHealthy(flags); }
      var idx := Select(strategy, ipHash, hs, allHealthy);
      r := Some(idx);
    }

    method Select(strategy: Strategy, ipHash: nat, hs: seq<nat>, allHealthy: bool) returns (idx: nat)
      requires Valid() && hs != [] && forall k | 0 <= k < |hs| :: hs[k] < active.Length
      requires allHealthy ==> hs == seq(|upstreams|, i => i)
      modifies this`counter
      ensures Valid()
      ensures idx == ChoiceFrom(strategy, hs, active[..], old(counter), ipHash)
      ensures counter ==
        if strategy == RoundRobin || strategy == Random then Mod(old(counter) + 1, WORD) else old(counter)
    {
      hide Scramble, FewestOf, Mod;
      match strategy {
        case RoundRobin =>
          var n := FetchAdd();
          if allHealthy {
            idx := Mod(n, |upstreams|);
          } else {
            idx := hs[Mod(n, |hs|)];
          }
        case LeastConnections =>
          idx := MinByKey(hs);
        case IpHash =>
          idx := hs[Mod(ipHash, |hs|)];
        case Random =>
          var seed := FetchAdd();
          idx := hs[Mod(Scramble(seed), |hs|)];
      }
    }

    /** The first candidate with the smallest number of active connections. */
    method MinByKey(candidates: seq<nat>) returns (best: nat)
      requires candidates != [] && forall k | 0 <= k < |candidates| :: candidates[k] < active.Length
      ensures best == FewestOf(candidates, active[..])
    {
      hide FewestOf;
      ghost var loads := active[..];
      best := candidates[0];
      FewestOne(candidates, loads);
      var i := 1;
      while i < |candidates|
        invariant 1 <= i <= |candidates| && best < active.Length
        invariant best == FewestOf(candidates[..i], loads)
      {
        FewestStep(candidates, loads, i);
        if active[candidates[i]] < active[best] { best := candidates[i]; }
        i := i + 1;
      }
      assert candidates[..i] == candidates;
    }

    method MarkUnhealthy(addr: string)
      requires Valid()
      modifies healthy
      ensures Valid()
      ensures forall i | 0 <= i < |upstreams| :: healthy[i] == (old(healthy[i]) && upstreams[i] != addr)
    {
      Mark(addr, false);
    }

    method MarkHealthy(addr: string)
      requires Valid()
      modifies healthy
      ensures Valid()
      ensures forall i | 0 <= i < |upstreams| :: healthy[i] == (old(healthy[i]) || upstreams[i] == addr)
    {
      Mark(addr, true);
    }

    method Mark(addr: string, value: bool)
      requires Valid()
      modifies healthy
      ensures forall i | 0 <= i < |upstreams| ::
        healthy[i] == if upstreams[i] == addr then value else old(healthy[i])
    {
      var i := 0;
      while i < |upstreams|
        invariant 0 <= i <= |upstreams|
        invariant forall j | 0 <= j < i :: healthy[j] == if upstreams[j] == addr then value else old(healthy[j])
        invariant forall j | i <= j < |upstreams| :: healthy[j] == old(healthy[j])
      {
        if upstreams[i] == addr { healthy[i] := value; }
        i := i + 1;
      }
    }
  }
}
