/** The reconnecting socket of frontend/lib/websocket.ts.

    Sockets and timers are numbered.  History sets record which sockets have handlers, which
    have opened or closed, and which timers are armed, so that "at most one" can be said.
    Listeners may call connect and close while the close handler is still running. */
module WingsSocket {
  import opened Text

  const MIN_BACKOFF := 1000
  const MAX_BACKOFF := 30_000

  datatype SocketState = CONNECTING | CONNECTED | RECONNECTING | CLOSED

  /** What a caller may do.  `throws` says whether the WebSocket constructor throws, `random`
      is Math.random() if a retry is scheduled. */
  datatype Api = Connect(url: string, throws: bool, random: real) | Close

  datatype Event =
    | Calls(api: Api)
    | Opened(id: nat)
    | Shut(id: nat, revoked: bool, random: real, onClose: seq<Api>, onReconnect: seq<Api>)
    | Fires(timer: nat, throws: bool, random: real)

  /** An empty url is no url, as in the source. */
  datatype S = S(
    socket: Option<nat>, url: string, state: SocketState, timer: Option<nat>, attempts: nat,
    intentional: bool, hadSuccess: bool, nextRetryMs: int,
    live: set<nat>, open: set<nat>, dead: set<nat>, armed: set<nat>, sockets: nat, timers: nat)

  const START := S(None, "", CLOSED, None, 0, false, false, 0, {}, {}, {}, {}, 0, 0)

  // ---------------------------------------------------------------- delays

  function Doubled(n: nat): (r: nat)
    ensures r >= MIN_BACKOFF
  {
    if n == 0 then MIN_BACKOFF else 2 * Doubled(n - 1)
  }

  function Backoff(attempts: nat): (r: nat)
    ensures MIN_BACKOFF <= r <= MAX_BACKOFF
  {
    if Doubled(attempts) < MAX_BACKOFF then Doubled(attempts) else MAX_BACKOFF
  }

  /** Math.round */
  function Round(x: real): int { (x + 0.5).Floor }

  function Delay(attempts: nat, random: real): int {
    Round(Jittered(Backoff(attempts) as real, random))
  }

  /** A random factor between 0.75 and 1.25. */
  function Jittered(b: real, random: real): real { b * (0.75 + random * 0.5) }

  predicate Random(r: real) { 0.0 <= r < 1.0 }

  predicate DelayOk(ms: int) { 750 <= ms <= 37500 }

  /** Every delay is within a quarter of the back-off, and between 0.75 and 37.5 seconds. */
  lemma DelayBounds(attempts: nat, random: real)
    requires Random(random)
    ensures DelayOk(Delay(attempts, random))
    ensures 3 * Backoff(attempts) <= 4 * Delay(attempts, random) + 2
    ensures 4 * Delay(attempts, random) <= 5 * Backoff(attempts) + 2
  {
    hide Backoff, Round, Jittered;
    var b := Backoff(attempts) as real;
    Jitter(b, random);
    Rounded(Jittered(b, random), b, Backoff(attempts));
  }

  lemma Jitter(b: real, r: real)
    requires 0.0 <= b && Random(r)
    ensures b * 0.75 <= Jittered(b, r) <= b * 1.25
  {
    Product(b, r);
    Product(b, 1.0 - r);
    assert b * (1.0 - r) == b - b * r;
    assert b * (0.75 + r * 0.5) == b * 0.75 + b * r * 0.5;
  }

  lemma Product(a: real, b: real)
    requires 0.0 <= a && 0.0 <= b
    ensures 0.0 <= a * b
  {
  }

  lemma Rounded(x: real, b: real, n: nat)
    requires b == n as real && b * 0.75 <= x <= b * 1.25
    ensures 3 * n <= 4 * Round(x) + 2 && 4 * Round(x) <= 5 * n + 2
    ensures 1000 <= n <= 30000 ==> DelayOk(Round(x))
  {
  }

  /** Delays before the cap double with every failed attempt. */
  lemma BackoffDoubles(attempts: nat)
    ensures Backoff(attempts + 1) == if 2 * Backoff(attempts) < MAX_BACKOFF then 2 * Backoff(attempts) else MAX_BACKOFF
  {
  }

  // ---------------------------------------------------------------- the methods as functions

  function ClearTimer(s: S): S {
    match s.timer
    case None => s
    case Some(t) => s.(timer := None, armed := s.armed - {t})
  }

  function Destroy(s: S): S {
    match s.socket
    case None => s
    case Some(id) => s.(socket := None, live := s.live - {id})
  }

  function Schedule(s: S, random: real): S {
    if s.intentional || s.url == "" then s
    else
      var c := ClearTimer(s);
      c.(attempts := c.attempts + 1, nextRetryMs := Delay(c.attempts, random), state := RECONNECTING,
         timer := Some(c.timers), armed := c.armed + {c.timers}, timers := c.timers + 1)
  }

  function CreateSocket(s: S, throws: bool, random: real): S {
    var d := Destroy(s);
    if d.url == "" then d
    else
      var e := d.(state := if d.hadSuccess then RECONNECTING else CONNECTING);
      if throws then Schedule(e, random)
      else e.(socket := Some(e.sockets), live := e.live + {e.sockets}, sockets := e.sockets + 1)
  }

  function Apply(s: S, api: Api): S {
    match api
    case Connect(url, throws, random) =>
      if s.state == CONNECTED || s.state == CONNECTING then s
      else CreateSocket(s.(intentional := false, url := url), throws, random)
    case Close =>
      Destroy(ClearTimer(s.(intentional := true)).(attempts := 0, hadSuccess := false)).(state := CLOSED)
  }

  function ApplyAll(s: S, apis: seq<Api>): S
    decreases |apis|
  {
    if apis == [] then s else ApplyAll(Apply(s, apis[0]), apis[1..])
  }

  function OnOpen(s: S, id: nat): S {
    ClearTimer(s.(attempts := 0, hadSuccess := true, open := s.open + {id})).(state := CONNECTED)
  }

  /** The close handler; listeners run at its two points of emission. */
  function OnClose(s: S, id: nat, revoked: bool, random: real, onClose: seq<Api>, onReconnect: seq<Api>): S {
    var heard := ApplyAll(s.(state := CLOSED, dead := s.dead + {id}), onClose);
    if heard.intentional || revoked then heard
    else Schedule(if heard.hadSuccess then ApplyAll(heard, onReconnect) else heard, random)
  }

  function OnTimer(s: S, t: nat, throws: bool, random: real): S {
    CreateSocket(s.(timer := None, armed := s.armed - {t}), throws, random)
  }

  /** What can happen next.  Only a socket that has opened can be closed for a reason the server
      gives: the reason comes in a close frame, after the handshake. */
  predicate Enabled(s: S, e: Event) {
    match e
    case Calls(_) => true
    case Opened(id) => id in s.live && id !in s.open && id !in s.dead
    case Shut(id, revoked, _, _, _) => id in s.live && id !in s.dead && (revoked ==> id in s.open)
    case Fires(t, _, _) => t in s.armed
  }

  function Step(s: S, e: Event): S {
    match e
    case Calls(api) => Apply(s, api)
    case Opened(id) => OnOpen(s, id)
    case Shut(id, revoked, random, onClose, onReconnect) => OnClose(s, id, revoked, random, onClose, onReconnect)
    case Fires(t, throws, random) => OnTimer(s, t, throws, random)
  }

  predicate ApiOk(api: Api) { api.Connect? ==> api.url != "" && Random(api.random) }

  predicate ApisOk(apis: seq<Api>) { forall i | 0 <= i < |apis| :: ApiOk(apis[i]) }

  /** Callers pass a url, and random numbers are random numbers. */
  predicate EventOk(e: Event) {
    match e
    case Calls(api) => ApiOk(api)
    case Opened(_) => true
    case Shut(_, _, random, onClose, onReconnect) => Random(random) && ApisOk(onClose) && ApisOk(onReconnect)
    case Fires(_, _, random) => Random(random)
  }

  // ---------------------------------------------------------------- the invariant

  /** Only the current socket has handlers, only the current timer is armed. */
  ghost predicate Owned(s: S) {
    && (forall id :: id in s.live <==> s.socket == Some(id))
    && (forall t :: t in s.armed <==> s.timer == Some(t))
    && (forall id :: id in s.live || id in s.open || id in s.dead ==> id < s.sockets)
    && (s.timer.Some? ==> s.timer.value < s.timers)
  }

  /** A socket that may still open or close. */
  predicate Waiting(s: S) { s.socket.Some? && s.socket.value !in s.dead }

  predicate OpenNow(s: S) { Waiting(s) && s.socket.value in s.open }

  predicate Consistent(s: S) {
    && (s.timer.Some? ==> s.url != "" && !s.intentional)
    && (s.socket.Some? ==> s.url != "")
    && (s.intentional ==> s.socket.None? && s.state == CLOSED)
    && (s.state == CONNECTED ==> s.timer.None?)
    && (s.state == CONNECTED <==> OpenNow(s))
    && (s.state == CONNECTING ==> Waiting(s) || s.timer.Some?)
    && (s.state == RECONNECTING ==> Waiting(s) || s.timer.Some?)
    && (s.nextRetryMs == 0 || DelayOk(s.nextRetryMs))
  }

  ghost predicate Inv(s: S) { Owned(s) && Consistent(s) }

  lemma ScheduleKeeps(s: S, random: real)
    requires Owned(s) && Random(random) && s.url != "" && (s.nextRetryMs == 0 || DelayOk(s.nextRetryMs))
    requires s.intentional ==> Inv(s)
    requires !OpenNow(s)
    ensures Inv(Schedule(s, random))
  {
    DelayBounds(s.attempts, random);
    hide Delay;
  }

  lemma CreateKeeps(s: S, throws: bool, random: real)
    requires Owned(s) && Random(random) && s.url != "" && !s.intentional
    requires s.nextRetryMs == 0 || DelayOk(s.nextRetryMs)
    ensures Inv(CreateSocket(s, throws, random))
  {
    hide Delay;
    if throws {
      var e := Destroy(s).(state := if s.hadSuccess then RECONNECTING else CONNECTING);
      ScheduleKeeps(e, random);
    }
  }

  lemma ApplyKeeps(s: S, api: Api)
    requires Inv(s) && ApiOk(api)
    ensures Inv(Apply(s, api))
    ensures s.url != "" ==> Apply(s, api).url != ""
    ensures s.state != CONNECTED ==> Apply(s, api).state != CONNECTED
  {
    hide Delay;
    if api.Connect? && s.state != CONNECTED && s.state != CONNECTING {
      CreateKeeps(s.(intentional := false, url := api.url), api.throws, api.random);
    }
  }

  lemma {:induction false} ApplyAllKeeps(s: S, apis: seq<Api>)
    requires Inv(s) && ApisOk(apis)
    ensures Inv(ApplyAll(s, apis))
    ensures s.url != "" ==> ApplyAll(s, apis).url != ""
    ensures s.state != CONNECTED ==> ApplyAll(s, apis).state != CONNECTED
    decreases |apis|
  {
    hide Apply, Inv, ApiOk;
    if apis != [] {
      assert ApiOk(apis[0]);
      ApplyKeeps(s, apis[0]);
      ApplyAllKeeps(Apply(s, apis[0]), apis[1..]);
    }
  }

  /** What holds after every event, whatever order they come in. */
  lemma StepKeeps(s: S, e: Event)
    requires Inv(s) && Enabled(s, e) && EventOk(e)
    ensures Inv(Step(s, e))
  {
    match e
    case Calls(api) => ApplyKeeps(s, api);
    case Opened(id) =>
    case Shut(id, revoked, random, onClose, onReconnect) => CloseKeeps(s, id, revoked, random, onClose, onReconnect);
    case Fires(t, throws, random) => CreateKeeps(s.(timer := None, armed := s.armed - {t}), throws, random);
  }

  lemma CloseKeeps(s: S, id: nat, revoked: bool, random: real, onClose: seq<Api>, onReconnect: seq<Api>)
    requires Inv(s) && id in s.live && Random(random) && ApisOk(onClose) && ApisOk(onReconnect)
    ensures Inv(OnClose(s, id, revoked, random, onClose, onReconnect))
  {
    var shut := s.(state := CLOSED, dead := s.dead + {id});
    assert Inv(shut);
    hide Apply, Delay, ApisOk;
    ApplyAllKeeps(shut, onClose);
    var heard := ApplyAll(shut, onClose);
    if !heard.intentional && !revoked {
      ApplyAllKeeps(heard, onReconnect);
      ScheduleKeeps(if heard.hadSuccess then ApplyAll(heard, onReconnect) else heard, random);
    }
  }

  // ---------------------------------------------------------------- every run

  ghost predicate Reaches(s: S, events: seq<Event>, last: S)
    decreases |events|
  {
    if events == [] then last == s
    else Enabled(s, events[0]) && EventOk(events[0]) && Reaches(Step(s, events[0]), events[1..], last)
  }

  lemma {:induction false} ReachableInv(s: S, events: seq<Event>, last: S)
    requires Inv(s) && Reaches(s, events, last)
    ensures Inv(last)
    decreases |events|
  {
    hide Inv, Step, Enabled, EventOk;
    if events != [] {
      StepKeeps(s, events[0]);
      ReachableInv(Step(s, events[0]), events[1..], last);
    }
  }

  lemma RunInv(events: seq<Event>, s: S)
    requires Reaches(START, events, s)
    ensures Inv(s)
  {
    assert Inv(START);
    hide Inv, Reaches;
    ReachableInv(START, events, s);
  }

  /** In every run: at most one socket has handlers and at most one timer is armed; a timer means
      a url and no intentional close; while connected there is no timer; and the socket never
      hangs: connecting or reconnecting, a socket is under way or a timer will fire. */
  lemma Runs(events: seq<Event>, s: S)
    requires Reaches(START, events, s)
    ensures |s.live| <= 1 && |s.armed| <= 1
    ensures s.armed != {} ==> s.url != "" && !s.intentional
    ensures s.state == CONNECTED ==> s.armed == {} && s.live != {}
    ensures s.state == CONNECTING || s.state == RECONNECTING ==>
      s.armed != {} || exists id :: id in s.live && id !in s.dead
    ensures s.nextRetryMs == 0 || DelayOk(s.nextRetryMs)
  {
    assert Inv(START);
    ReachableInv(START, events, s);
    if Waiting(s) { assert s.socket.value in s.live; }
    assert s.live == if s.socket.Some? then {s.socket.value} else {};
    assert s.armed == if s.timer.Some? then {s.timer.value} else {};
    hide Reaches;
  }

  // ---------------------------------------------------------------- coming back

  /** Exactly one timer is armed, for the next try: the first after about a second, and twice as
      long for each try before it, up to 30 seconds. */
  ghost predicate RetryArmed(s: S, tries: nat) {
    && s.state == RECONNECTING && s.attempts == tries + 1
    && s.timer.Some? && s.armed == {s.timer.value}
    && 3 * Pause(tries) <= 4 * s.nextRetryMs + 2 && 4 * s.nextRetryMs <= 5 * Pause(tries) + 2
  }

  function Pause(tries: nat): nat {
    if tries == 0 then 1000 else if 2 * Pause(tries - 1) < 30000 then 2 * Pause(tries - 1) else 30000
  }

  lemma {:induction false} PauseIs(tries: nat)
    ensures Pause(tries) == Backoff(tries)
  {
    if tries > 0 {
      PauseIs(tries - 1);
      BackoffDoubles(tries - 1);
    }
  }

  /** In every run, a connection that is lost, or could not be made, is tried again, if listeners
      leave the socket alone: one timer is armed and the count of tries is one higher. */
  lemma LostIsRetried(before: seq<Event>, s: S, id: nat, random: real)
    requires Reaches(START, before, s) && Random(random) && Enabled(s, Shut(id, false, random, [], []))
    ensures RetryArmed(Step(s, Shut(id, false, random, [], [])), s.attempts)
    ensures Step(s, Shut(id, false, random, [], [])).url == s.url
  {
    RunInv(before, s);
    DelayBounds(s.attempts, random);
    PauseIs(s.attempts);
    hide Delay, Reaches, Pause, Backoff;
    assert !s.intentional && s.url != "";
  }

  /** A timer that fires opens a socket to the same url, or arms the next timer if that throws. */
  lemma FiringTriesAgain(before: seq<Event>, s: S, t: nat, throws: bool, random: real)
    requires Reaches(START, before, s) && Random(random) && Enabled(s, Fires(t, throws, random))
    ensures var after := Step(s, Fires(t, throws, random));
      && after.url == s.url != ""
      && if throws then RetryArmed(after, s.attempts)
         else
           && after.live == {s.sockets} && after.sockets == s.sockets + 1
           && after.armed == {} && after.attempts == s.attempts
  {
    RunInv(before, s);
    DelayBounds(s.attempts, random);
    PauseIs(s.attempts);
    hide Delay, Reaches, Pause, Backoff;
  }

  /** A socket that opens ends the retrying: connected, no timer, and the count starts again. */
  lemma OpeningConnects(before: seq<Event>, s: S, id: nat)
    requires Reaches(START, before, s) && Enabled(s, Opened(id))
    ensures var after := Step(s, Opened(id));
      after.state == CONNECTED && after.armed == {} && after.attempts == 0 && after.live == {id} && after.hadSuccess
  {
    RunInv(before, s);
    hide Delay, Reaches;
  }

  /** A call of connect is ignored while there is a connection or one is being made; otherwise a
      socket to the url is opened, or a timer armed if that throws. */
  lemma ConnectTries(before: seq<Event>, s: S, url: string, throws: bool, random: real)
    requires Reaches(START, before, s) && Random(random) && url != ""
    ensures var after := Step(s, Calls(Connect(url, throws, random)));
      if s.state == CONNECTED || s.state == CONNECTING then after == s
      else
        && after.url == url && !after.intentional
        && if throws then RetryArmed(after, s.attempts)
           else after.live == {s.sockets} && after.sockets == s.sockets + 1
                && after.state == (if s.hadSuccess then RECONNECTING else CONNECTING)
  {
    RunInv(before, s);
    DelayBounds(s.attempts, random);
    PauseIs(s.attempts);
    hide Delay, Reaches, Pause, Backoff;
  }

  /** A call of close forgets tries and success, and takes down socket and timer. */
  lemma CloseForgets(before: seq<Event>, s: S)
    requires Reaches(START, before, s)
    ensures var after := Step(s, Calls(Close));
      after.state == CLOSED && after.live == {} && after.armed == {} && after.attempts == 0 && !after.hadSuccess
  {
    RunInv(before, s);
    hide Delay, Reaches;
  }

  /** Listeners hear of every close, and of a retry if and only if there had been a connection. */
  lemma ListenersHear(before: seq<Event>, s: S, id: nat, revoked: bool, random: real, others: seq<Api>)
    requires Reaches(START, before, s) && Enabled(s, Shut(id, revoked, random, [], []))
    ensures Step(s, Shut(id, revoked, random, [Close], others)).intentional
    ensures Step(s, Shut(id, revoked, random, [], [Close])).intentional <==> s.hadSuccess && !revoked
  {
    RunInv(before, s);
    hide Delay, Reaches;
    assert [Close][1..] == [];
    var shut := s.(state := CLOSED, dead := s.dead + {id});
    assert ApplyAll(shut, [Close]) == Apply(shut, Close);
  }

  /** A caller or a listener closed the socket in this event. */
  predicate Closes(e: Event) {
    e == Calls(Close) || (e.Shut? && (Close in e.onClose || Close in e.onReconnect))
  }

  /** After one event the socket rests only for a reason in that event, or as it did before. */
  lemma RestsOnlyAfter(s: S, e: Event)
    requires Inv(s) && Enabled(s, e) && EventOk(e)
    ensures var after := Step(s, e);
      && (after.intentional ==> Closes(e))
      && (after.state == CLOSED && after.timer.None? ==> after.intentional || (e.Shut? && e.revoked))
  {
    match e
    case Calls(api) =>
    case Opened(id) =>
    case Fires(t, throws, random) => hide Delay;
    case Shut(id, revoked, random, onClose, onReconnect) =>
      var shut := s.(state := CLOSED, dead := s.dead + {id});
      assert Inv(shut) && !shut.intentional;
      hide Delay, Inv;
      IntentionalByClose(shut, onClose);
      ApplyAllKeeps(shut, onClose);
      var heard := ApplyAll(shut, onClose);
      if !heard.intentional && !revoked {
        IntentionalByClose(heard, onReconnect);
        ApplyAllKeeps(heard, onReconnect);
      }
  }

  lemma {:induction false} IntentionalByClose(s: S, apis: seq<Api>)
    requires !s.intentional
    ensures ApplyAll(s, apis).intentional ==> Close in apis
    decreases |apis|
  {
    hide Delay;
    if apis != [] && apis[0].Connect? {
      IntentionalByClose(Apply(s, apis[0]), apis[1..]);
      assert forall a | a in apis[1..] :: a in apis;
    }
  }

  /** In every run, the socket is closed with no timer only before the first event, after a close,
      or after a close for revoked permission. */
  lemma RestsOnlyIf(events: seq<Event>, s: S)
    requires Reaches(START, events, s) && s.state == CLOSED && s.armed == {}
    ensures events == [] || Closes(events[|events| - 1]) || (events[|events| - 1].Shut? && events[|events| - 1].revoked)
  {
    if events != [] {
      var front := events[..|events| - 1];
      LastStep(START, events, s);
      var p :| Reaches(START, front, p) && Enabled(p, events[|events| - 1]) && EventOk(events[|events| - 1])
        && s == Step(p, events[|events| - 1]);
      RunInv(front, p);
      RunInv(events, s);
      assert s.timer.None?;
      hide Reaches, Step, Enabled, EventOk, Inv;
      RestsOnlyAfter(p, events[|events| - 1]);
    }
  }

  lemma {:induction false} LastStep(from: S, events: seq<Event>, s: S)
    requires events != [] && Reaches(from, events, s)
    ensures exists p {:trigger Reaches(from, events[..|events| - 1], p)} ::
      var e := events[|events| - 1];
      Reaches(from, events[..|events| - 1], p) && Enabled(p, e) && EventOk(e) && s == Step(p, e)
    decreases |events|
  {
    hide Step, Enabled, EventOk;
    var next := Step(from, events[0]);
    if |events| == 1 {
      assert Reaches(from, events[..0], from);
    } else {
      LastStep(next, events[1..], s);
      var e, rest := events[|events| - 1], events[1..];
      assert rest[|rest| - 1] == e;
      var p :| Reaches(next, rest[..|rest| - 1], p) && Enabled(p, e) && EventOk(e) && s == Step(p, e);
      assert events[..|events| - 1][1..] == rest[..|rest| - 1];
      assert Reaches(from, events[..|events| - 1], p);
    }
  }

  // ---------------------------------------------------------------- after close

  predicate NoConnect(events: seq<Event>) {
    forall i | 0 <= i < |events| :: !(events[i].Calls? && events[i].api.Connect?)
  }

  /** Closed, with no timer and no socket that could still do something. */
  predicate Idle(s: S) { s.state == CLOSED && s.timer.None? && !Waiting(s) }

  /** From an idle state nothing can happen on its own: until the next connect no socket is
      opened, no timer fires, and the state stays CLOSED. */
  lemma {:induction false} IdleStays(s: S, events: seq<Event>, last: S)
    requires Inv(s) && Idle(s) && Reaches(s, events, last) && NoConnect(events)
    ensures Idle(last) && last.sockets == s.sockets && last.timers == s.timers
    ensures forall i | 0 <= i < |events| :: events[i] == Calls(Close)
    decreases |events|
  {
    if events != [] {
      var next := Step(s, events[0]);
      assert events[0] == Calls(Close);
      StepKeeps(s, events[0]);
      assert NoConnect(events[1..]) by { assert forall i | 0 <= i < |events| - 1 :: events[1..][i] == events[i + 1]; }
      IdleStays(next, events[1..], last);
      assert forall i | 1 <= i < |events| :: events[i] == events[1..][i - 1];
    }
  }

  /** In every run, after a call of close nothing happens on its own until the next connect. */
  lemma NothingAfterClose(before: seq<Event>, s: S, later: seq<Event>, last: S)
    requires Reaches(START, before, s) && Reaches(Apply(s, Close), later, last) && NoConnect(later)
    ensures Idle(last) && last.sockets == s.sockets && last.timers == s.timers
    ensures forall i | 0 <= i < |later| :: later[i] == Calls(Close)
  {
    hide Inv, Reaches, NoConnect, Apply, Idle;
    RunInv(before, s);
    CloseLeavesIdle(s);
    IdleStays(Apply(s, Close), later, last);
  }

  lemma CloseLeavesIdle(s: S)
    requires Inv(s)
    ensures Inv(Apply(s, Close)) && Idle(Apply(s, Close))
    ensures Apply(s, Close).sockets == s.sockets && Apply(s, Close).timers == s.timers
  {
    hide Delay;
  }

  predicate OnlyCloses(apis: seq<Api>) { forall i | 0 <= i < |apis| :: apis[i] == Close }

  lemma {:induction false} ClosesKeepIdle(s: S, apis: seq<Api>)
    requires Inv(s) && Idle(s) && OnlyCloses(apis)
    ensures Inv(ApplyAll(s, apis)) && Idle(ApplyAll(s, apis))
    ensures ApplyAll(s, apis).sockets == s.sockets && ApplyAll(s, apis).timers == s.timers
    decreases |apis|
  {
    if apis != [] {
      CloseLeavesIdle(s);
      hide Inv, Apply, Idle;
      ClosesKeepIdle(Apply(s, apis[0]), apis[1..]);
    }
  }

  /** In every run, a close for revoked permission is final: whatever listeners do short of a
      connect, nothing happens on its own until the next connect.  The opening of the socket had
      disarmed the timer. */
  lemma RevokedIsFinal(before: seq<Event>, s: S, id: nat, random: real, onClose: seq<Api>, onReconnect: seq<Api>,
                       later: seq<Event>, last: S)
    requires Reaches(START, before, s) && OnlyCloses(onClose)
    requires Enabled(s, Shut(id, true, random, onClose, onReconnect))
    requires Reaches(Step(s, Shut(id, true, random, onClose, onReconnect)), later, last) && NoConnect(later)
    ensures Idle(last) && last.sockets == s.sockets && last.timers == s.timers
    ensures forall i | 0 <= i < |later| :: later[i] == Calls(Close)
  {
    hide Inv, Reaches, NoConnect, Step, Idle, Enabled, OnlyCloses;
    RunInv(before, s);
    RevokedLeavesIdle(s, id, random, onClose, onReconnect);
    IdleStays(Step(s, Shut(id, true, random, onClose, onReconnect)), later, last);
  }

  lemma RevokedLeavesIdle(s: S, id: nat, random: real, onClose: seq<Api>, onReconnect: seq<Api>)
    requires Inv(s) && Enabled(s, Shut(id, true, random, onClose, onReconnect)) && OnlyCloses(onClose)
    ensures var after := Step(s, Shut(id, true, random, onClose, onReconnect));
      Inv(after) && Idle(after) && after.sockets == s.sockets && after.timers == s.timers
  {
    var shut := s.(state := CLOSED, dead := s.dead + {id});
    assert OpenNow(s) && Inv(shut) && Idle(shut);
    hide Inv, ApplyAll, Idle;
    ClosesKeepIdle(shut, onClose);
  }

  // ---------------------------------------------------------------- exact conditions

  /** Calling connect with an empty url is harmless exactly if it is ignored, or the socket is
      closed with no timer armed.  While reconnecting it leaves a state that nothing will ever
      leave: no socket, no url, and at most a timer that opens nothing. */
  lemma EmptyUrlIff(s: S, throws: bool, random: real)
    requires Inv(s)
    ensures Inv(Apply(s, Connect("", throws, random)))
      <==> s.state == CONNECTED || s.state == CONNECTING || (s.state == CLOSED && s.timer.None?)
  {
    hide Delay;
    var after := Apply(s, Connect("", throws, random));
    if s.state != CONNECTED && s.state != CONNECTING {
      assert after == Destroy(s.(intentional := false, url := ""));
      if s.state == CLOSED && s.timer.None? { assert Owned(after); }
    }
  }

  // ---------------------------------------------------------------- the class

  class Socket {
    var socket: Option<nat>
    var url: string
    var state: SocketState
    var reconnectTimer: Option<nat>
    var reconnectAttempts: nat
    var intentionallyClosed: bool
    var hadSuccessfulConnection: bool
    var nextRetryMs: int
    var sockets: nat
    var timers: nat
    ghost var live: set<nat>
    ghost var open: set<nat>
    ghost var dead: set<nat>
    ghost var armed: set<nat>

    ghost function View(): S
      reads this
    {
      S(socket, url, state, reconnectTimer, reconnectAttempts, intentionallyClosed, hadSuccessfulConnection,
        nextRetryMs, live, open, dead, armed, sockets, timers)
    }

    constructor ()
      ensures View() == START
    {
      socket, url, state, reconnectTimer := None, "", CLOSED, None;
      reconnectAttempts, intentionallyClosed, hadSuccessfulConnection, nextRetryMs := 0, false, false, 0;
      sockets, timers := 0, 0;
      live, open, dead, armed := {}, {}, {}, {};
    }

    method StopTimer()
      modifies this`reconnectTimer, this`armed
      ensures View() == ClearTimer(old(View()))
    {
      if reconnectTimer.Some? {
        armed := armed - {reconnectTimer.value};
        reconnectTimer := None;
      }
    }

    /** Takes the handlers off the current socket and forgets it. */
    method DestroySocket()
      modifies this`socket, this`live
      ensures View() == Destroy(old(View()))
    {
      if socket.None? { return; }
      live := live - {socket.value};
      socket := None;
    }

    method ScheduleReconnect(random: real)
      modifies this
      ensures View() == Schedule(old(View()), random)
    {
      hide Delay;
      if intentionallyClosed || url == "" { return; }
      StopTimer();
      var delay := Delay(reconnectAttempts, random);
      reconnectAttempts := reconnectAttempts + 1;
      nextRetryMs := delay;
      state := RECONNECTING;
      reconnectTimer := Some(timers);
      armed := armed + {timers};
      timers := timers + 1;
    }

    method Create(throws: bool, random: real)
      modifies this
      ensures View() == CreateSocket(old(View()), throws, random)
    {
      hide Schedule;
      DestroySocket();
      if url == "" { return; }
      state := if hadSuccessfulConnection then RECONNECTING else CONNECTING;
      if throws {
        ScheduleReconnect(random);
        return;
      }
      socket := Some(sockets);
      live := live + {sockets};
      sockets := sockets + 1;
    }

    /** connect and close, as a caller or a listener uses them. */
    method Use(api: Api)
      modifies this
      ensures View() == Apply(old(View()), api)
    {
      hide Apply;
      match api {
        case Connect(newUrl, throws, random) => ConnectTo(newUrl, throws, random);
        case Close => CloseNow();
      }
    }

    method ConnectTo(newUrl: string, throws: bool, random: real)
      modifies this
      ensures View() == Apply(old(View()), Connect(newUrl, throws, random))
    {
      hide CreateSocket;
      if state == CONNECTED || state == CONNECTING { return; }
      intentionallyClosed := false;
      url := newUrl;
      Create(throws, random);
    }

    method CloseNow()
      modifies this
      ensures View() == Apply(old(View()), Close)
    {
      hide ClearTimer, Destroy;
      intentionallyClosed := true;
      StopTimer();
      reconnectAttempts := 0;
      hadSuccessfulConnection := false;
      DestroySocket();
      state := CLOSED;
    }

    /** The listeners of one emission, one after the other. */
    method Emit(calls: seq<Api>)
      modifies this
      ensures View() == ApplyAll(old(View()), calls)
      decreases |calls|
    {
      hide Apply;
      if calls != [] {
        Use(calls[0]);
        Emit(calls[1..]);
      }
    }

    method HandleOpen(id: nat)
      modifies this
      ensures View() == OnOpen(old(View()), id)
    {
      hide ClearTimer;
      open := open + {id};
      reconnectAttempts := 0;
      hadSuccessfulConnection := true;
      StopTimer();
      state := CONNECTED;
    }

    method HandleClose(id: nat, revoked: bool, random: real, onClose: seq<Api>, onReconnect: seq<Api>)
      modifies this
      ensures View() == OnClose(old(View()), id, revoked, random, onClose, onReconnect)
    {
      hide ApplyAll, Schedule;
      dead := dead + {id};
      state := CLOSED;
      Emit(onClose);
      if intentionallyClosed { return; }
      if revoked { return; }
      if hadSuccessfulConnection { Emit(onReconnect); }
      ScheduleReconnect(random);
    }

    method HandleTimer(t: nat, throws: bool, random: real)
      modifies this
      ensures View() == OnTimer(old(View()), t, throws, random)
    {
      hide CreateSocket;
      armed := armed - {t};
      reconnectTimer := None;
      Create(throws, random);
    }

    /** Any event that can happen keeps the invariant of the object. */
    method Handle(e: Event)
      requires Inv(View()) && Enabled(View(), e) && EventOk(e)
      modifies this
      ensures View() == Step(old(View()), e) && Inv(View())
    {
      StepKeeps(View(), e);
      hide Inv, Apply, OnOpen, OnClose, OnTimer;
      match e {
        case Calls(api) => Use(api);
        case Opened(id) => HandleOpen(id);
        case Shut(id, revoked, random, onClose, onReconnect) => HandleClose(id, revoked, random, onClose, onReconnect);
        case Fires(t, throws, random) => HandleTimer(t, throws, random);
      }
    }
  }
}
