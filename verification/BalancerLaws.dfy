/** How often each upstream is chosen over a run of picks with fixed health. */
module BalancerLaws {
  import opened Text
  import opened Balancer
  import opened Finite

  // ---------------------------------------------------------------- counting

  function Count(xs: seq<nat>, v: nat): nat {
    if xs == [] then 0 else (if xs[0] == v then 1 else 0) + Count(xs[1..], v)
  }

  /** Any two equal entries are at least `h` apart, and all entries are below `h`. */
  predicate Spread(xs: seq<nat>, h: nat) {
    && (forall i | 0 <= i < |xs| :: xs[i] < h)
    && (forall i, j | 0 <= i < j < |xs| && j - i < h :: xs[i] != xs[j])
  }

  lemma {:induction false} CountSplit(a: seq<nat>, b: seq<nat>, v: nat)
    ensures Count(a + b, v) == Count(a, v) + Count(b, v)
  {
    if a == [] {
      assert a + b == b;
    } else {
      assert (a + b)[1..] == a[1..] + b;
      CountSplit(a[1..], b, v);
    }
  }

  lemma {:induction false} CountAbsent(xs: seq<nat>, v: nat)
    ensures Count(xs, v) > 0 <==> v in xs
  {
    if xs != [] { CountAbsent(xs[1..], v); }
  }

  lemma {:induction false} DistinctOnce(xs: seq<nat>, v: nat)
    requires forall i, j | 0 <= i < j < |xs| :: xs[i] != xs[j]
    ensures Count(xs, v) <= 1
  {
    if xs != [] {
      DistinctOnce(xs[1..], v);
      CountAbsent(xs[1..], v);
    }
  }

  /** Pigeonhole: `h` distinct numbers below `h` are all of them. */
  lemma FullWindow(xs: seq<nat>, h: nat, v: nat)
    requires Spread(xs, h) && |xs| == h && v < h
    ensures Count(xs, v) == 1
  {
    ElementsSize(xs);
    assert Elements(xs) <= Below(h);
    SubsetOfSameSize(Elements(xs), Below(h));
    assert v in Below(h);
    CountAbsent(xs, v);
    DistinctOnce(xs, v);
  }

  /** Every value gets the floor or the ceiling of an equal share. */
  lemma {:induction false} FairShare(xs: seq<nat>, h: nat, v: nat)
    requires h > 0 && Spread(xs, h) && v < h
    ensures |xs| / h <= Count(xs, v) <= (|xs| + h - 1) / h
    decreases |xs|
  {
    if |xs| < h {
      DistinctOnce(xs, v);
      SmallShare(|xs|, h);
    } else {
      var first, rest := xs[..h], xs[h..];
      assert xs == first + rest;
      SpreadParts(xs, h);
      FullWindow(first, h, v);
      CountSplit(first, rest, v);
      FairShare(rest, h, v);
      ShareStep(|xs|, h);
    }
  }

  lemma SpreadParts(xs: seq<nat>, h: nat)
    requires Spread(xs, h) && h <= |xs|
    ensures Spread(xs[..h], h) && Spread(xs[h..], h)
  {
  }

  lemma SmallShare(n: nat, h: nat)
    requires n < h
    ensures n / h == 0 && (n > 0 ==> (n + h - 1) / h == 1) && (n == 0 ==> (n + h - 1) / h == 0)
  {
    if n > 0 { DivOf(n + h - 1, h, 1); } else { DivOf(h - 1, h, 0); }
  }

  lemma ShareStep(n: nat, h: nat)
    requires 0 < h <= n
    ensures n / h == (n - h) / h + 1 && (n + h - 1) / h == (n - h + h - 1) / h + 1
  {
    AddOne(n - h, h);
    AddOne(n - 1, h);
  }

  lemma AddOne(n: nat, h: nat)
    requires h > 0
    ensures (n + h) / h == n / h + 1
  {
    assert n == n / h * h + n % h;
    DivOf(n + h, h, n / h + 1);
  }

  lemma DivOf(n: nat, h: nat, q: nat)
    requires h > 0 && q * h <= n < q * h + h
    ensures n / h == q
  {
    var p, r := n / h, n % h;
    assert n == p * h + r;
    if p < q { NextMultiple(p, q, h); }
    if p > q { NextMultiple(q, p, h); }
  }

  lemma {:induction false} NextMultiple(p: nat, q: nat, h: nat)
    requires p < q
    ensures p * h + h <= q * h
    decreases q
  {
    assert q * h == (q - 1) * h + h;
    if p < q - 1 { NextMultiple(p, q - 1, h); }
  }

  // ---------------------------------------------------------------- remainders

  /** Numbers less than `h` apart leave different remainders. */
  lemma CloseDiffer(a: nat, b: nat, h: nat)
    requires 0 < h && a < b < a + h
    ensures Mod(a, h) != Mod(b, h)
  {
    SameRemainder(a, b, h);
    RemainderOf(b - a, h, 0, b - a);
  }

  /** Taking a remainder by a multiple of `h` first does not change the remainder by `h`. */
  lemma ModOfMultiple(x: nat, h: nat, q: nat)
    requires h > 0 && q > 0
    ensures x % (h * q) % h == x % h
  {
    var m := h * q;
    var r := x % m;
    assert x == x / m * m + r;
    assert x == h * (x / m * q) + r by { assert x / m * (h * q) == h * (x / m * q); }
    AddMultiple(r, h, x / m * q);
  }

  lemma AddMultiple(r: nat, h: nat, k: nat)
    requires h > 0
    ensures (h * k + r) % h == r % h
  {
    var d, s := r / h, r % h;
    assert r == h * d + s;
    assert h * k + r == h * (k + d) + s;
    RemainderOf(h * k + r, h, k + d, s);
  }

  lemma RemainderOf(n: nat, h: nat, q: nat, s: nat)
    requires h > 0 && n == h * q + s && s < h
    ensures n % h == s
  {
    assert q * h == h * q;
    DivOf(n, h, q);
  }

  /** Equal remainders mean a multiple apart, and conversely. */
  lemma SameRemainder(a: nat, b: nat, h: nat)
    requires h > 0 && a <= b
    ensures a % h == b % h <==> (b - a) % h == 0
  {
    var k := a / h;
    assert a == h * k + a % h;
    var d, s := (b - a) / h, (b - a) % h;
    assert b - a == h * d + s;
    assert b == h * (k + d) + (a % h + s);
    AddMultiple(a % h + s, h, k + d);
    if s > 0 {
      if a % h + s < h { RemainderOf(a % h + s, h, 0, a % h + s); }
      else { RemainderOf(a % h + s, h, 1, a % h + s - h); }
    } else {
      RemainderOf(a % h, h, 0, a % h);
    }
  }

  // ---------------------------------------------------------------- powers of two

  function Pow2(m: nat): (r: nat)
    ensures r > 0
  {
    if m == 0 then 1 else 2 * Pow2(m - 1)
  }

  lemma {:induction false} Pow2Split(m: nat, n: nat)
    requires m <= n
    ensures Pow2(n) == Pow2(m) * Pow2(n - m)
  {
    if m > 0 {
      Pow2Split(m - 1, n - 1);
      assert Pow2(n) == 2 * (Pow2(m - 1) * Pow2(n - m)) == 2 * Pow2(m - 1) * Pow2(n - m);
    }
  }

  lemma WordIsPow2()
    ensures WORD == Pow2(64)
  {
    Pow2Of16();
    Pow2Split(16, 32);
    Pow2Split(32, 64);
    hide Pow2;
  }

  lemma Pow2Of16()
    ensures Pow2(16) == 65536
  {
    assert Pow2(4) == 16;
    Pow2Split(4, 8);
    Pow2Split(8, 16);
  }

  /** An odd factor can be cancelled from a multiple of a power of two. */
  lemma {:induction false} OddCancel(m: nat, d: nat, a: nat)
    requires a % 2 == 1 && d * a % Pow2(m) == 0
    ensures d % Pow2(m) == 0
  {
    if m > 0 {
      var p := Pow2(m - 1);
      var t := d * a / Pow2(m);
      assert d * a == 2 * p * t;
      EvenFactor(d, a, p * t);
      var e := d / 2;
      assert d == 2 * e;
      assert 2 * (e * a) == 2 * (p * t);
      RemainderOf(e * a, p, t, 0);
      OddCancel(m - 1, e, a);
      var s := e / p;
      assert e == p * s;
      assert d == Pow2(m) * s;
      RemainderOf(d, Pow2(m), s, 0);
    }
  }

  lemma EvenFactor(d: nat, a: nat, n: nat)
    requires a % 2 == 1 && d * a == 2 * n
    ensures d % 2 == 0
  {
    var b, e := a / 2, d / 2;
    assert a == 2 * b + 1;
    assert d * a == 2 * (d * b) + d;
    assert d == 2 * (n - d * b);
  }

  // ---------------------------------------------------------------- runs of picks

  /** The slots taken by `k` picks from counter value `c`. */
  function Slots(strategy: Strategy, h: nat, c: nat, k: nat): (r: seq<nat>)
    requires h > 0
    ensures |r| == k && forall j | 0 <= j < k :: r[j] == Slot(strategy, h, Mod(c + j, WORD), 0)
  {
    if k == 0 then [] else Slots(strategy, h, c, k - 1) + [Slot(strategy, h, Mod(c + k - 1, WORD), 0)]
  }

  /** Without wrap-around, or when the number of healthy upstreams divides the range of the
      counter, round-robin slots come around after exactly `h` picks. */
  lemma RoundRobinSpread(h: nat, c: nat, k: nat)
    requires h > 0
    requires c + k <= WORD || WORD % h == 0
    ensures Spread(Slots(RoundRobin, h, c, k), h)
  {
    var xs := Slots(RoundRobin, h, c, k);
    hide Mod, Slots;
    forall i, j | 0 <= i < j < k && j - i < h ensures xs[i] != xs[j] {
      RoundRobinSlot(h, c, k, i);
      RoundRobinSlot(h, c, k, j);
      CloseDiffer(c + i, c + j, h);
    }
  }

  lemma RoundRobinSlot(h: nat, c: nat, k: nat, j: nat)
    requires h > 0 && j < k
    requires c + k <= WORD || WORD % h == 0
    ensures Slot(RoundRobin, h, Mod(c + j, WORD), 0) == Mod(c + j, h)
  {
    if c + k <= WORD {
      RemainderOf(c + j, WORD, 0, c + j);
    } else {
      var q := WORD / h;
      assert WORD == h * q;
      ModOfMultiple(c + j, h, q);
    }
  }

  /** Scrambling respects remainders: the slot depends on the counter modulo `h` only. */
  lemma ScrambleSlot(h: nat, m: nat, n: nat)
    requires h == Pow2(m) && m <= 64
    ensures Slot(Random, h, Mod(n, WORD), 0) == (n * LCG_MUL + LCG_ADD) % h
  {
    WordIsPow2();
    Pow2Split(m, 64);
    var x, q := n % WORD, Pow2(64 - m);
    ModOfMultiple(x * LCG_MUL + LCG_ADD, h, q);
    ModOfMultiple(n, h, q);
    Linear(x, h);
    Linear(n, h);
  }

  lemma Linear(x: nat, h: nat)
    requires h > 0
    ensures (x * LCG_MUL + LCG_ADD) % h == (x % h * LCG_MUL + LCG_ADD) % h
  {
    var k, r := x / h, x % h;
    assert x == h * k + r;
    assert x * LCG_MUL + LCG_ADD == h * (k * LCG_MUL) + (r * LCG_MUL + LCG_ADD);
    AddMultiple(r * LCG_MUL + LCG_ADD, h, k * LCG_MUL);
  }

  /** When the number of healthy upstreams is a power of two, any `h` consecutive Random picks
      take different slots, also across the wrap-around of the counter. */
  lemma RandomSpread(h: nat, m: nat, c: nat, k: nat)
    requires h == Pow2(m) && m <= 64
    ensures Spread(Slots(Random, h, c, k), h)
  {
    var xs := Slots(Random, h, c, k);
    forall i, j | 0 <= i < j < k && j - i < h ensures xs[i] != xs[j] {
      ScrambleSlot(h, m, c + i);
      ScrambleSlot(h, m, c + j);
      RandomDiffer(h, m, c + i, c + j);
    }
  }

  lemma RandomDiffer(h: nat, m: nat, a: nat, b: nat)
    requires h == Pow2(m) && a < b < a + h
    ensures (a * LCG_MUL + LCG_ADD) % h != (b * LCG_MUL + LCG_ADD) % h
  {
    var d := b - a;
    SameRemainder(a * LCG_MUL + LCG_ADD, b * LCG_MUL + LCG_ADD, h);
    assert b * LCG_MUL + LCG_ADD - (a * LCG_MUL + LCG_ADD) == d * LCG_MUL;
    RemainderOf(d, h, 0, d);
    if d * LCG_MUL % h == 0 { OddCancel(m, d, LCG_MUL); }
  }

  /** Round robin comes around evenly from every counter value, wrap-around included, if and
      only if the number of healthy upstreams divides the range of the counter. */
  lemma RoundRobinWrapIff(h: nat)
    requires 0 < h
    ensures (forall c, k :: Spread(Slots(RoundRobin, h, c, k), h)) <==> WORD % h == 0
  {
    hide Slots, Spread;
    if WORD % h == 0 {
      forall c, k ensures Spread(Slots(RoundRobin, h, c, k), h) { RoundRobinSpread(h, c, k); }
    } else {
      WrapRepeats(h);
    }
  }

  /** Otherwise some upstream comes up again too soon at the wrap-around. */
  lemma WrapRepeats(h: nat)
    requires h > 0 && WORD % h != 0
    ensures !Spread(Slots(RoundRobin, h, WORD - 1, (WORD - 1) % h + 2), h)
  {
    var r := (WORD - 1) % h;
    LastRemainder(h);
    SmallCounter(WORD - 1);
    SmallCounter(r);
    AfterWrap(r);
    RemainderOf(r, h, 0, r);
    hide Slots;
    var xs := Slots(RoundRobin, h, WORD - 1, r + 2);
    assert xs[0] == Slot(RoundRobin, h, Mod(WORD - 1 + 0, WORD), 0) == r;
    assert xs[r + 1] == Slot(RoundRobin, h, Mod(WORD - 1 + (r + 1), WORD), 0) == r;
  }

  lemma AfterWrap(r: nat)
    requires r < WORD
    ensures Mod(WORD - 1 + (r + 1), WORD) == r
  {
    RemainderOf(WORD - 1 + (r + 1), WORD, 1, r);
  }

  lemma LastRemainder(h: nat)
    requires h > 0 && WORD % h != 0
    ensures (WORD - 1) % h + 1 < h && (WORD - 1) % h < WORD
  {
    var q, s := WORD / h, WORD % h;
    assert WORD == h * q + s;
    RemainderOf(WORD - 1, h, q, s - 1);
  }

  // ---------------------------------------------------------------- shares of upstreams

  /** The upstreams chosen by `k` picks in a row. */
  function Chosen(strategy: Strategy, flags: seq<bool>, active: seq<int>, c: nat, k: nat): seq<nat>
    requires |active| == |flags|
    decreases k
  {
    if k == 0 then []
    else
      match Choice(strategy, flags, active, c, 0)
      case None => []
      case Some(u) => [u] + Chosen(strategy, flags, active, Advanced(strategy, flags, c), k - 1)
  }

  /** Picks in a row are slots in a row. */
  lemma {:induction false} ChosenSlots(strategy: Strategy, flags: seq<bool>, active: seq<int>, c: nat, k: nat)
    requires |active| == |flags| > 1 && Healthy(flags) != [] && c < WORD
    requires strategy == RoundRobin || strategy == Random
    ensures var hs := Healthy(flags);
      var slots := Slots(strategy, |hs|, c, k);
      && |Chosen(strategy, flags, active, c, k)| == k
      && forall j | 0 <= j < k :: Chosen(strategy, flags, active, c, k)[j] == hs[slots[j]]
    decreases k
  {
    hide Healthy, Slot, Choice, Mod, Slots;
    if k > 0 {
      var hs, next := Healthy(flags), Mod(c + 1, WORD);
      ChosenSlots(strategy, flags, active, next, k - 1);
      ChoiceIsSlot(strategy, flags, active, c);
      SmallCounter(c);
      var slots, later := Slots(strategy, |hs|, c, k), Slots(strategy, |hs|, next, k - 1);
      forall j | 1 <= j < k ensures slots[j] == later[j - 1] { NextCounter(c, j); }
    }
  }

  lemma SmallCounter(c: nat)
    requires c < WORD
    ensures Mod(c, WORD) == c
  {
    RemainderOf(c, WORD, 0, c);
  }

  lemma ChoiceIsSlot(strategy: Strategy, flags: seq<bool>, active: seq<int>, c: nat)
    requires |active| == |flags| && Healthy(flags) != [] && strategy != LeastConnections
    ensures Choice(strategy, flags, active, c, 0) == Some(Healthy(flags)[Slot(strategy, |Healthy(flags)|, c, 0)])
  {
    hide Healthy, Slot;
    var hs := Healthy(flags);
    assert forall k | 0 <= k < |hs| :: hs[k] in hs;
  }

  lemma NextCounter(c: nat, j: nat)
    requires c < WORD && j >= 1
    ensures Mod(Mod(c + 1, WORD) + (j - 1), WORD) == Mod(c + j, WORD)
  {
    if c + 1 == WORD {
      RemainderOf(WORD, WORD, 1, 0);
      AddMultiple(j - 1, WORD, 1);
    } else {
      RemainderOf(c + 1, WORD, 0, c + 1);
    }
  }

  /** Counting an upstream is counting its slot. */
  lemma {:induction false} CountSlots(hs: seq<nat>, slots: seq<nat>, chosen: seq<nat>, s: nat)
    requires |slots| == |chosen| && s < |hs|
    requires forall j | 0 <= j < |slots| :: slots[j] < |hs| && chosen[j] == hs[slots[j]]
    requires forall i, j | 0 <= i < j < |hs| :: hs[i] < hs[j]
    ensures Count(chosen, hs[s]) == Count(slots, s)
  {
    if slots != [] { CountSlots(hs, slots[1..], chosen[1..], s); }
  }

  /** With fixed health, `k` picks in a row choose every healthy upstream the floor or the
      ceiling of an equal share of times: round robin as long as the counter does not wrap, or
      for ever if the number of healthy upstreams divides 2^64; Random for every power of two. */
  lemma FairPicks(strategy: Strategy, flags: seq<bool>, active: seq<int>, c: nat, k: nat, u: nat, m: nat)
    requires |active| == |flags| > 1 && u < |flags| && flags[u] && c < WORD
    requires strategy == RoundRobin || strategy == Random
    requires strategy == RoundRobin ==> c + k <= WORD || WORD % |Healthy(flags)| == 0
    requires strategy == Random ==> m <= 64 && |Healthy(flags)| == Pow2(m)
    ensures var h := |Healthy(flags)|;
      h > 0 && k / h <= Count(Chosen(strategy, flags, active, c, k), u) <= (k + h - 1) / h
  {
    hide Healthy, Slots, Chosen, Spread, Pow2;
    var hs := Healthy(flags);
    assert u in hs;
    var s :| 0 <= s < |hs| && hs[s] == u;
    var slots := Slots(strategy, |hs|, c, k);
    ChosenSlots(strategy, flags, active, c, k);
    if strategy == RoundRobin { RoundRobinSpread(|hs|, c, k); } else { RandomSpread(|hs|, m, c, k); }
    CountSlots(hs, slots, Chosen(strategy, flags, active, c, k), s);
    FairShare(slots, |hs|, s);
  }

  // ---------------------------------------------------------------- single picks

  /** Each strategy in numbers: the upstream taken from the list of healthy ones, and what becomes
      of the counter. */
  lemma PickIs(flags: seq<bool>, active: seq<int>, c: nat, ipHash: nat)
    requires |active| == |flags| && Healthy(flags) != []
    ensures var hs := Healthy(flags);
      var scrambled := (c * 6_364_136_223_846_793_005 + 1_442_695_040_888_963_407) % 18_446_744_073_709_551_616;
      && Choice(RoundRobin, flags, active, c, ipHash) == Some(hs[c % |hs|])
      && Choice(IpHash, flags, active, c, ipHash) == Some(hs[ipHash % |hs|])
      && Choice(Random, flags, active, c, ipHash) == Some(hs[scrambled % |hs|])
    ensures forall s: Strategy ::
      Advanced(s, flags, c) ==
        if |flags| > 1 && (s == RoundRobin || s == Random) then (c + 1) % 18_446_744_073_709_551_616 else c
  {
    hide Healthy;
    assert forall k | 0 <= k < |Healthy(flags)| :: Healthy(flags)[k] in Healthy(flags);
  }
}
