/** The gate for GET calls of frontend/lib/api-client.ts: at most eight raw fetches at a time,
    first come first served, and one raw fetch for all callers of the same path.

    Between two awaits the code runs without interruption, so every interleaving is a sequence
    of three kinds of events: a call, the start of the raw fetch of an admitted call, and its
    end. */
module ApiClient {
  import opened Finite

  const MAX_CONCURRENT := 8

  /** Calls that were not answered by an earlier one are numbered as they come. */
  type Ticket = nat

  datatype Event = Call(path: string) | Begin(t: Ticket) | End(t: Ticket)

  /** `running`, `queue` and `inflight` are the module's variables; the rest is history:
      the path of every ticket, how many were admitted, which raw fetches began and ended. */
  datatype Gate = Gate(
    running: nat, queue: seq<Ticket>, inflight: map<string, Ticket>,
    paths: seq<string>, admitted: nat, begun: set<Ticket>, ended: set<Ticket>)

  const START := Gate(0, [], map[], [], 0, {}, {})

  /** _pump: admits waiting tickets while there is room. */
  function Pump(g: Gate): Gate
    decreases |g.queue|
  {
    if g.running < MAX_CONCURRENT && g.queue != [] then
      Pump(g.(running := g.running + 1, queue := g.queue[1..], admitted := g.admitted + 1))
    else g
  }

  function Enter(g: Gate, path: string): Gate {
    if path in g.inflight then g
    else
      var t := |g.paths|;
      var pumped := Pump(g.(queue := g.queue + [t], paths := g.paths + [path]));
      pumped.(inflight := pumped.inflight[path := t])
  }

  function Leave(g: Gate, t: Ticket): Gate
    requires t < |g.paths|
  {
    Pump(g.(inflight := g.inflight - {g.paths[t]}, ended := g.ended + {t},
            running := AtLeastZero(g.running - 1)))
  }

  function AtLeastZero(n: int): nat { if n < 0 then 0 else n }

  /** What may happen next: only an admitted call starts fetching, only a fetch ends. */
  predicate Enabled(g: Gate, e: Event) {
    match e
    case Call(_) => true
    case Begin(t) => t < g.admitted && t !in g.begun
    case End(t) => t < |g.paths| && t in g.begun && t !in g.ended
  }

  function Step(g: Gate, e: Event): Gate
    requires Enabled(g, e)
  {
    match e
    case Call(path) => Enter(g, path)
    case Begin(t) => g.(begun := g.begun + {t})
    case End(t) => Leave(g, t)
  }

  // ---------------------------------------------------------------- the invariant

  function Range(lo: nat, hi: nat): (r: seq<Ticket>)
    requires lo <= hi
    ensures |r| == hi - lo && forall i | 0 <= i < |r| :: r[i] == lo + i
    decreases hi - lo
  {
    if lo == hi then [] else [lo] + Range(lo + 1, hi)
  }

  /** The waiting tickets are those not admitted, in the order in which they came. */
  ghost predicate Fifo(g: Gate) {
    g.admitted <= |g.paths| && g.queue == Range(g.admitted, |g.paths|)
  }

  ghost predicate Counted(g: Gate) {
    && (forall t | t in g.begun :: t < g.admitted)
    && g.ended <= g.begun
    && g.running == g.admitted - |g.ended|
  }

  /** Exactly the tickets that have not ended are in flight, one for each path. */
  ghost predicate Shared(g: Gate) {
    && (forall p | p in g.inflight ::
          g.inflight[p] < |g.paths| && g.paths[g.inflight[p]] == p && g.inflight[p] !in g.ended)
    && (forall t | 0 <= t < |g.paths| && t !in g.ended :: g.paths[t] in g.inflight && g.inflight[g.paths[t]] == t)
  }

  ghost predicate Full(g: Gate) {
    g.running <= MAX_CONCURRENT && (g.queue != [] ==> g.running == MAX_CONCURRENT)
  }

  ghost predicate Inv(g: Gate) { Fifo(g) && Counted(g) && Shared(g) && Full(g) }

  lemma {:induction false} PumpKeeps(g: Gate)
    requires Fifo(g) && Counted(g) && g.running <= MAX_CONCURRENT
    ensures Fifo(Pump(g)) && Counted(Pump(g)) && Full(Pump(g))
    ensures Pump(g).inflight == g.inflight && Pump(g).paths == g.paths
    ensures Pump(g).begun == g.begun && Pump(g).ended == g.ended && g.admitted <= Pump(g).admitted
    decreases |g.queue|
  {
    if g.running < MAX_CONCURRENT && g.queue != [] {
      var next := g.(running := g.running + 1, queue := g.queue[1..], admitted := g.admitted + 1);
      assert next.queue == Range(next.admitted, |next.paths|);
      PumpKeeps(next);
    }
  }

  lemma EnterKeeps(g: Gate, path: string)
    requires Inv(g)
    ensures Inv(Enter(g, path))
  {
    if path !in g.inflight {
      var t := |g.paths|;
      var pushed := g.(queue := g.queue + [t], paths := g.paths + [path]);
      assert pushed.queue == Range(pushed.admitted, |pushed.paths|);
      PumpKeeps(pushed);
      var after := Enter(g, path);
      hide Pump, Range;
      assert Shared(after);
    }
  }

  lemma LeaveKeeps(g: Gate, t: Ticket)
    requires Inv(g) && Enabled(g, End(t))
    ensures Inv(Leave(g, t)) && g.running > 0
  {
    SomethingRuns(g, t);
    var freed := g.(inflight := g.inflight - {g.paths[t]}, ended := g.ended + {t}, running := g.running - 1);
    PumpKeeps(freed);
    hide Pump;
    assert Shared(Leave(g, t));
  }

  /** A fetch that has not ended is counted, so the counter is never clamped at zero. */
  lemma SomethingRuns(g: Gate, t: Ticket)
    requires Counted(g) && t in g.begun && t !in g.ended
    ensures g.running > 0
  {
    SubsetSize(g.ended + {t}, Below(g.admitted));
  }

  lemma StepKeeps(g: Gate, e: Event)
    requires Inv(g) && Enabled(g, e)
    ensures Inv(Step(g, e))
  {
    match e
    case Call(path) => EnterKeeps(g, path);
    case Begin(t) =>
    case End(t) => LeaveKeeps(g, t);
  }

  // ---------------------------------------------------------------- every interleaving

  /** The states of a run; a run takes enabled events only. */
  ghost predicate Reaches(g: Gate, events: seq<Event>, last: Gate)
    decreases |events|
  {
    if events == [] then last == g
    else Enabled(g, events[0]) && Reaches(Step(g, events[0]), events[1..], last)
  }

  lemma {:induction false} ReachableInv(g: Gate, events: seq<Event>, last: Gate)
    requires Inv(g) && Reaches(g, events, last)
    ensures Inv(last)
    decreases |events|
  {
    hide Inv, Step, Enabled;
    if events != [] {
      StepKeeps(g, events[0]);
      ReachableInv(Step(g, events[0]), events[1..], last);
    }
  }

  lemma StartInv()
    ensures Inv(START)
  {
  }

  /** The raw fetches running now. */
  function Fetching(g: Gate): set<Ticket> { g.begun - g.ended }

  /** In every interleaving: never more than eight raw fetches; the counter is admitted minus
      ended; who waits, waits for eight others; and each path is fetched at most once at a
      time. */
  lemma Interleavings(events: seq<Event>, g: Gate)
    requires Reaches(START, events, g)
    ensures |Fetching(g)| <= g.running == g.admitted - |g.ended| <= 8
    ensures g.queue != [] ==> g.running == 8
    ensures g.admitted <= |g.paths| && g.queue == Range(g.admitted, |g.paths|)
    ensures forall t | t in Fetching(g) ::
      t < g.admitted && g.paths[t] in g.inflight && g.inflight[g.paths[t]] == t
    ensures forall s, t | s in Fetching(g) && t in Fetching(g) && g.paths[s] == g.paths[t] :: s == t
  {
    StartInv();
    ReachableInv(START, events, g);
    hide Reaches;
    SubsetSize(g.begun, Below(g.admitted));
    assert g.begun == Fetching(g) + g.ended;
  }

  /** A call for a path whose fetch is under way, or still waiting, opens no new one: it gets
      the ticket of the first caller. */
  lemma CallsShare(events: seq<Event>, g: Gate, path: string, t: Ticket)
    requires Reaches(START, events, g) && t < |g.paths| && g.paths[t] == path && t !in g.ended
    ensures Step(g, Call(path)) == g && path in g.inflight && g.inflight[path] == t
  {
    StartInv();
    ReachableInv(START, events, g);
  }

  /** The end of a fetch admits the ticket waiting longest, and only that one. */
  lemma EndAdmitsNext(events: seq<Event>, g: Gate, t: Ticket)
    requires Reaches(START, events, g) && Enabled(g, End(t))
    ensures var after := Step(g, End(t));
      if g.queue == [] then after.admitted == g.admitted && after.running == g.running - 1
      else after.admitted == g.admitted + 1 && after.queue == g.queue[1..] && after.running == MAX_CONCURRENT
  {
    StartInv();
    ReachableInv(START, events, g);
    SomethingRuns(g, t);
    hide Reaches;
    PumpOnce(g.(inflight := g.inflight - {g.paths[t]}, ended := g.ended + {t}, running := g.running - 1));
  }

  lemma PumpOnce(g: Gate)
    requires g.queue == [] || g.running == MAX_CONCURRENT - 1
    ensures Pump(g) == if g.queue == [] then g
      else g.(running := MAX_CONCURRENT, queue := g.queue[1..], admitted := g.admitted + 1)
  {
    if g.queue != [] {
      var next := g.(running := g.running + 1, queue := g.queue[1..], admitted := g.admitted + 1);
      assert Pump(next) == next;
    }
  }

  // ---------------------------------------------------------------- the module's variables

  class Client {
    var running: nat
    var queue: seq<Ticket>
    var inflight: map<string, Ticket>
    ghost var history: Gate
    var tickets: nat

    ghost predicate Valid()
      reads this
    {
      && Inv(history) && tickets == |history.paths|
      && running == history.running && queue == history.queue && inflight == history.inflight
    }

    constructor ()
      ensures Valid() && history == START
    {
      running, queue, inflight, tickets, history := 0, [], map[], 0, START;
    }

    /** Admitting a ticket resolves the promise its caller waits for. */
    method PumpQueue()
      requires running == history.running && queue == history.queue && inflight == history.inflight
      modifies this`running, this`queue, this`history
      ensures history == Pump(old(history)) && history.inflight == inflight && history.paths == old(history.paths)
      ensures running == history.running && queue == history.queue
    {
      while running < MAX_CONCURRENT && |queue| > 0
        invariant running == history.running && queue == history.queue
        invariant inflight == history.inflight && history.paths == old(history.paths)
        invariant Pump(history) == Pump(old(history))
        decreases |queue|
      {
        running := running + 1;
        history := history.(running := running, queue := queue[1..], admitted := history.admitted + 1);
        queue := queue[1..];
      }
    }

    /** apiFetch for a plain GET, up to its first wait. */
    method Fetch(path: string) returns (t: Ticket)
      requires Valid()
      modifies this
      ensures Valid() && history == Step(old(history), Call(path))
      ensures t < tickets && history.paths[t] == path && t !in history.ended
      ensures old(path in inflight) ==> t == old(inflight)[path]
      ensures old(path !in inflight) ==> t == old(tickets)
    {
      StepKeeps(history, Call(path));
      if path in inflight { return inflight[path]; }
      t := tickets;
      tickets := tickets + 1;
      queue := queue + [t];
      history := history.(queue := queue, paths := history.paths + [path]);
      PumpQueue();
      inflight := inflight[path := t];
      history := history.(inflight := inflight);
    }

    /** The raw fetch of an admitted call starts. */
    method BeginRaw(t: Ticket)
      requires Valid() && Enabled(history, Begin(t))
      modifies this`history
      ensures Valid() && history == Step(old(history), Begin(t))
    {
      history := history.(begun := history.begun + {t});
    }

    /** The raw fetch of `path` settles, with a value or an error: both ways end here. */
    method EndRaw(path: string, t: Ticket)
      requires Valid() && Enabled(history, End(t)) && history.paths[t] == path
      modifies this`running, this`queue, this`inflight, this`history
      ensures Valid() && history == Step(old(history), End(t))
      ensures path !in inflight
    {
      StepKeeps(history, End(t));
      inflight := inflight - {path};
      running := AtLeastZero(running - 1);
      history := history.(inflight := inflight, ended := history.ended + {t}, running := running);
      PumpQueue();
    }
  }
}
