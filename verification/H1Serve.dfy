/** The keep-alive loop of halo/src/h1.rs.

    What the loop asks of the outside world (static files, limiter, cache, balancer, connecting)
    is answered arbitrarily here, so every property holds for all answers.  Two things are
    proved of every run: where in the client's byte stream each request was taken from, and
    that connection accounting comes out even. */
module H1Serve {
  import opened Text
  import opened Proto
  import opened Buffers
  import opened H1Relay
  import opened H1Rewrite
  import H1Response
  import UpstreamPool

  const MAX_HEADERS := 16 * 1024
  const METRICS_PATH: Bytes := "/__eclihalo/metrics"

  type Oracle = Bytes -> Parsed<Request>

  datatype Route = Route(rules: Rules, upstreams: seq<Bytes>, staticFiles: bool, websocket: bool, cache: bool)

  datatype Static = Full | Sendfile | Missing | Error

  /** What the surroundings have in store for one request: the answers of static files, limiter,
      cache and balancer, whether a connection can be opened, whether the upstream takes what it
      is sent, what it answers, and whether it gets through with that.  `room` is the space for
      one read of a head. */
  datatype World = World(
    static_: Static, admitted: bool, cached: bool, pick: Option<nat>, connects: bool,
    accepts: bool, answer: Bytes, finishes: bool, room: nat)

  /** Why `serve` returns. */
  datatype Exit =
    EndOfStream | HeadTooLarge | BadRequest | Broken | Tunnel | Finished | BodyLost | Crashed

  /** What one request does to the loop. */
  datatype Flow = Continue(keepAlive: bool) | Leave(exit: Exit)

  /** What became of a request: answered without an upstream, with the connection kept or closed;
      no connection; an upstream that did not take the head; no whole answer; answered. */
  datatype Fate =
    Local | Refused | Unconnected | NotSent | NoAnswer(why: H1Response.Failure) | Answered(keepAlive: bool)

  /** One request as the loop took it from the stream, what it sent to an upstream, and what
      became of it.  If no upstream took the head, only the head leaves the stream. */
  datatype Turn = Turn(req: Request, head: Bytes, body: Bytes, fate: Fate, sent: Bytes)
  {
    predicate HeadOnly() { fate.Local? || fate.Refused? || fate.Unconnected? || fate.NotSent? }

    /** Does the loop go on after this request? */
    predicate GoesOn() { KeepAlive(req) && (fate.Local? || fate == Answered(true)) }
  }

  predicate KeepAlive(req: Request) { !req.close && req.version == 1 }

  // ---------------------------------------------------------------- parsing

  /** The general parser never panics and reports heads inside the buffer. */
  ghost predicate SaneRequests(oracle: Oracle) {
    forall b: Bytes {:trigger oracle(b)} ::
      oracle(b) != Panicked && (oracle(b).Ok? ==> 0 < oracle(b).value.headersEnd <= |b|)
  }

  /** parse_request: the general parser is asked when the fast one does not accept. */
  function ParseRequest(buf: Bytes, oracle: Oracle): Parsed<Request> {
    if RequestFast(buf).Ok? then RequestFast(buf) else oracle(buf)
  }

  lemma HeadInside(buf: Bytes, oracle: Oracle)
    requires SaneRequests(oracle)
    ensures ParseRequest(buf, oracle) != Panicked
    ensures ParseRequest(buf, oracle).Ok? ==> 0 < ParseRequest(buf, oracle).value.headersEnd <= |buf|
  {
    if RequestFast(buf).Ok? {
      RequestFastStable(buf, "");
      hide RequestFast;
    }
  }

  // ---------------------------------------------------------------- what a run takes

  /** How much of what follows the head belongs to the request, as the relays see it. */
  function BodyTaken(rest: Bytes, req: Request, local: bool): Bytes {
    if local then ""
    else if req.chunked then rest[..ChunkedRelay(rest, false).sent]
    else if req.contentLength.Some? then rest[..Min(req.contentLength.value, |rest|)]
    else ""
  }

  /** Turn `t` is what stands at the front of the stream `s`, as parsed from some prefix. */
  ghost predicate TurnAt(oracle: Oracle, s: Bytes, t: Turn) {
    exists p: Bytes {:trigger ParseRequest(p, oracle)} ::
      && p <= s && ParseRequest(p, oracle) == Ok(t.req)
      && 0 < t.req.headersEnd <= |p|
      && t.head == s[..t.req.headersEnd]
      && t.body == BodyTaken(s[t.req.headersEnd..], t.req, t.HeadOnly())
  }

  /** The parser sees `req` at the front of `s`. */
  ghost predicate Stands(oracle: Oracle, s: Bytes, req: Request) {
    exists p: Bytes {:trigger ParseRequest(p, oracle)} ::
      p <= s && ParseRequest(p, oracle) == Ok(req) && 0 < req.headersEnd <= |p|
  }

  function Taken(t: Turn): nat { |t.head| + |t.body| }

  /** Taking the turns of `log` one after the other from `s` leaves `rest`. */
  ghost predicate Run(oracle: Oracle, s: Bytes, log: seq<Turn>, rest: Bytes)
    decreases |log|
  {
    if log == [] then rest == s
    else TurnAt(oracle, s, log[0]) && Taken(log[0]) <= |s| && Run(oracle, s[Taken(log[0])..], log[1..], rest)
  }

  lemma {:induction false} RunAppend(oracle: Oracle, s: Bytes, log: seq<Turn>, mid: Bytes, t: Turn)
    requires Run(oracle, s, log, mid) && TurnAt(oracle, mid, t) && Taken(t) <= |mid|
    ensures Run(oracle, s, log + [t], mid[Taken(t)..])
    decreases |log|
  {
    hide TurnAt;
    if log == [] {
      assert [t][1..] == [] && [] + [t] == [t];
    } else {
      RunAppend(oracle, s[Taken(log[0])..], log[1..], mid, t);
      assert (log + [t])[1..] == log[1..] + [t];
    }
  }

  // ---------------------------------------------------------------- the environment

  class Stats {
    var active: seq<int>
    var failures: seq<nat>

    constructor (n: nat)
      ensures |active| == |failures| == n && forall i | 0 <= i < n :: active[i] == 0
    {
      active, failures := seq(n, _ => 0), seq(n, _ => 0);
    }

    method AddActive(k: nat, d: int)
      requires k < |active|
      modifies this`active
      ensures active == old(active)[k := old(active)[k] + d]
    {
      active := active[k := active[k] + d];
    }

    method Fail(k: nat)
      requires k < |failures|
      modifies this`failures
      ensures failures == old(failures)[k := old(failures)[k] + 1]
    {
      failures := failures[k := failures[k] + 1];
    }
  }

  class Handler {
    const metrics: bool
    const routes: map<Bytes, Route>
    const upstreams: seq<Bytes>
    const requests: Oracle
    const responses: H1Response.Oracle<Response>
    const rewrite: Bytes -> Bytes
    const ip: Bytes
    const pool: UpstreamPool.UpstreamPool
    const stats: Stats

    ghost predicate Valid()
      reads pool, stats
    {
      && pool.Valid()
      && |stats.active| == |stats.failures| == |upstreams|
      && SaneRequests(requests) && H1Response.SaneResponses(responses)
    }

    constructor (metrics: bool, routes: map<Bytes, Route>, upstreams: seq<Bytes>, requests: Oracle,
                 responses: H1Response.Oracle<Response>, rewrite: Bytes -> Bytes, ip: Bytes)
      requires SaneRequests(requests) && H1Response.SaneResponses(responses)
      ensures Valid() && fresh(pool) && fresh(stats) && pool.inUse == {}
    {
      this.metrics, this.routes, this.upstreams := metrics, routes, upstreams;
      this.requests, this.responses, this.rewrite, this.ip := requests, responses, rewrite, ip;
      pool := new UpstreamPool.UpstreamPool();
      stats := new Stats(|upstreams|);
    }
  }

  // ---------------------------------------------------------------- what is to become of a request

  /** Answer here (`must`: the answer has to arrive), refuse, hand the connection over, or ask
      upstream `k`. */
  datatype Plan = Reply(must: bool) | Refuse | HandOver | Forward(k: nat)

  predicate Safe(req: Request) { req.method_ == Get || req.method_ == Head }

  predicate Upgrades(req: Request, route: Route) {
    req.upgrade.Some? && ContainsIc(req.upgrade.value, "websocket") && route.websocket
  }

  function PlanOf(h: Handler, req: Request, w: World): (p: Plan)
    ensures p.Forward? ==> req.host in h.routes && w.pick == Some(p.k)
  {
    if h.metrics && req.path == METRICS_PATH then Reply(true)
    else if req.host !in h.routes then Refuse
    else
      var route := h.routes[req.host];
      if route.staticFiles && Safe(req) && (w.static_ != Missing || route.upstreams == []) then
        Reply(w.static_ == Full || w.static_ == Sendfile)
      else if !w.admitted then Refuse
      else if req.method_ == Connect || Upgrades(req, route) then HandOver
      else if route.cache && Safe(req) && w.cached then Reply(true)
      else match w.pick case None => Refuse case Some(k) => Forward(k)
  }

  /** More names are to be skipped than the rewriter has slots for. */
  predicate TooMany(h: Handler, req: Request, head: Bytes)
    requires req.host in h.routes
  {
    |SkipList(head, h.routes[req.host].rules)| > SKIP_SLOTS
  }

  /** How the relay of the answer ends, as far as the upstream's bytes decide it; `sure` says that
      neither peer fails. */
  ghost predicate AnswerFits(h: Handler, w: World, keepAlive: bool, sure: bool, end: H1Response.ResponseEnd) {
    exists resp, seen :: H1Response.EndFits(w.answer, h.responses, w.room, sure, keepAlive, end, resp, seen)
  }

  ghost predicate AnswerEnds(h: Handler, w: World, req: Request, sure: bool, end: H1Response.ResponseEnd) {
    AnswerFits(h, w, KeepAlive(req), sure && w.finishes, end)
  }

  /** The fate of a turn is what the world had in store; `sure` says that the client takes what
      it is sent. */
  ghost predicate Explained(h: Handler, w: World, t: Turn, sure: bool) {
    var plan := PlanOf(h, t.req, w);
    match t.fate
    case Local => plan.Reply?
    case Refused => plan.Refuse?
    case Unconnected => plan.Forward? && !w.connects
    case NotSent => plan.Forward? && !TooMany(h, t.req, t.head) && !w.accepts
    case NoAnswer(why) =>
      plan.Forward? && !TooMany(h, t.req, t.head) && AnswerEnds(h, w, t.req, sure, H1Response.Failed(why))
    case Answered(keepAlive) =>
      plan.Forward? && !TooMany(h, t.req, t.head) && AnswerEnds(h, w, t.req, sure, H1Response.Relayed(keepAlive))
  }

  /** Why a request at the front of `s` ends the loop on the spot.  `hears` says that the client
      sends what it has, `sure` as above. */
  ghost predicate Ends(h: Handler, w: World, s: Bytes, req: Request, exit: Exit, hears: bool, sure: bool) {
    && Stands(h.requests, s, req) && req.headersEnd <= |s|
    && var head, rest := s[..req.headersEnd], s[req.headersEnd..];
    var plan := PlanOf(h, req, w);
    match exit
    case Broken => !sure
    case Tunnel => plan.HandOver?
    case BodyLost => plan.Forward? && !TooMany(h, req, head) &&
      (!(hears && w.accepts) || (req.chunked && !ChunkedRelay(rest, false).ok))
    case Crashed => plan.Forward? && (TooMany(h, req, head) || AnswerEnds(h, w, req, sure, H1Response.Crashed))
    case _ => false
  }

  /** Sends some answer to the client. */
  method Respond(toClient: Sink) returns (ok: bool)
    modifies toClient
    ensures !ok ==> !toClient.reliable
  {
    var bytes: Bytes := *;
    ok := toClient.WriteAll(bytes);
  }

  // ---------------------------------------------------------------- one request

  /** Books are even: nothing in use that was not before, every counter as before. */
  twostate predicate Even(h: Handler)
    reads h.pool, h.stats
  {
    h.stats.active == old(h.stats.active) && h.pool.inUse == old(h.pool.inUse)
  }

  /** A panic unwinds past the accounting: the connection is dropped, but its upstream still
      counts it. */
  twostate predicate Leaked(h: Handler)
    reads h.pool, h.stats
  {
    && h.pool.inUse == old(h.pool.inUse)
    && exists k :: 0 <= k < |old(h.stats.active)|
         && h.stats.active == old(h.stats.active)[k := old(h.stats.active)[k] + 1]
  }

  /** The head is dropped from the buffer, and only the head. */
  method SkipHead(h: Handler, buf: BytesMut, req: Request, fate: Fate, ghost s: Bytes, ghost unread: Bytes)
    returns (ghost turn: Turn)
    requires SaneRequests(h.requests) && s == buf.data + unread
    requires ParseRequest(buf.data, h.requests) == Ok(req)
    requires fate.Local? || fate.Refused? || fate.Unconnected? || fate.NotSent?
    modifies buf
    ensures Moved(h.requests, s, turn, buf.data + unread) && turn.req == req && turn.fate == fate && turn.sent == ""
    ensures turn.head == old(buf.data[..req.headersEnd])
  {
    hide ParseRequest;
    HeadInside(buf.data, h.requests);
    turn := Turn(req, s[..req.headersEnd], "", fate, "");
    assert buf.data <= s && s[..req.headersEnd] == buf.data[..req.headersEnd];
    buf.Advance(req.headersEnd);
  }

  /** The request that the buffer starts with stands at the front of the stream. */
  lemma StandsHere(oracle: Oracle, buf: Bytes, unread: Bytes, req: Request)
    requires SaneRequests(oracle) && ParseRequest(buf, oracle) == Ok(req)
    ensures 0 < req.headersEnd <= |buf| && Stands(oracle, buf + unread, req)
    ensures (buf + unread)[..req.headersEnd] == buf[..req.headersEnd]
    ensures (buf + unread)[req.headersEnd..] == buf[req.headersEnd..] + unread
  {
    hide ParseRequest;
    HeadInside(buf, oracle);
    assert buf <= buf + unread;
  }

  /** The body relays, as one step: on success exactly the body has been taken, and sent.  They
      fail for a peer that fails, and for a chunked body that breaks off. */
  method TakeBody(h: Handler, client: Source, upstream: Sink, buf: BytesMut, req: Request, ghost fate: Fate)
    returns (ok: bool, ghost turn: Turn)
    requires SaneRequests(h.requests)
    requires ParseRequest(buf.data, h.requests) == Ok(req)
    requires fate.NoAnswer? || fate.Answered?
    modifies client, upstream, buf
    ensures ok ==>
      && Moved(h.requests, old(buf.data + client.unread), turn, buf.data + client.unread)
      && turn.req == req && turn.fate == fate
      && turn.head == old(buf.data[..req.headersEnd])
      && turn.sent == upstream.written == old(upstream.written) + turn.body
    ensures client.reliable && upstream.reliable ==>
      ok == (req.chunked ==> ChunkedRelay(old(buf.data + client.unread)[req.headersEnd..], false).ok)
    ensures req.chunked && ok ==> ChunkedRelay(old(buf.data + client.unread)[req.headersEnd..], false).ok
  {
    hide ParseRequest, ChunkedRelay, Prefixed;
    HeadInside(buf.data, h.requests);
    ghost var s, p := buf.data + client.unread, buf.data;
    ghost var rest := s[req.headersEnd..];
    assert buf.data[req.headersEnd..] + client.unread == rest;
    ghost var body := BodyTaken(rest, req, false);
    turn := Turn(req, s[..req.headersEnd], body, fate, upstream.written + body);
    assert s[..req.headersEnd] == buf.data[..req.headersEnd];
    if req.chunked {
      ok := StreamChunkedBody(client, upstream, buf, req.headersEnd);
    } else if req.contentLength.Some? {
      ok := StreamFixedBody(client, upstream, buf, req.headersEnd, req.contentLength.value);
    } else {
      buf.Advance(req.headersEnd);
      ok := true;
    }
    assert p <= s;
    assert rest[|turn.body|..] == s[Taken(turn)..];
  }

  function OneMore(counts: seq<nat>, k: nat): seq<nat>
    requires k < |counts|
  {
    counts[k := counts[k] + 1]
  }

  /** What is idle at an address once the first is taken. */
  function Others(slots: UpstreamPool.Slots, addr: Bytes): seq<UpstreamPool.Conn> {
    if UpstreamPool.Queue(slots, addr) == [] then [] else UpstreamPool.Queue(slots, addr)[1..]
  }

  /** `c` is the connection idle longest, if any is idle. */
  predicate Was(slots: UpstreamPool.Slots, addr: Bytes, c: UpstreamPool.Conn) {
    UpstreamPool.Queue(slots, addr) != [] ==> c == UpstreamPool.Queue(slots, addr)[0]
  }

  /** The connection idle longest at this address was taken, if there was one; others stay idle. */
  twostate predicate Took(h: Handler, addr: Bytes, conn: Option<UpstreamPool.Conn>)
    reads h.pool
  {
    && h.pool.slots == old(h.pool.slots)[addr := Others(old(h.pool.slots), addr)]
    && |Others(old(h.pool.slots), addr)| < 256
    && (conn.Some? ==> Was(old(h.pool.slots), addr, conn.value))
  }

  type Slots = UpstreamPool.Slots
  type Conns = set<UpstreamPool.Conn>

  /** Where the connection went: back to its queue after a whole answer that allows it, otherwise
      closed. */
  ghost predicate Placed(slots: Slots, closed: Conns, addr: Bytes, fate: Option<Fate>, slots': Slots, closed': Conns) {
    var others := Others(slots, addr);
    if fate == Some(Unconnected) then
      closed' == closed && slots' == slots[addr := others]
    else if fate == Some(Answered(true)) then
      closed' == closed && exists c :: slots' == slots[addr := others + [c]] && Was(slots, addr, c)
    else
      slots' == slots[addr := others] && exists c :: closed' == closed + {c} && Was(slots, addr, c)
  }

  /** Everything but an answer counts as a failure of the upstream. */
  function Failures(failures: seq<nat>, k: nat, fate: Option<Fate>, exit: Exit): seq<nat>
    requires k < |failures|
  {
    if (fate.Some? && fate.value.Answered?) || (fate.None? && exit == Crashed) then failures
    else OneMore(failures, k)
  }

  lemma PlacedNowhere(slots: Slots, closed: Conns, addr: Bytes)
    ensures Placed(slots, closed, addr, Some(Unconnected), slots[addr := Others(slots, addr)], closed)
  {
  }

  lemma PlacedBack(slots: Slots, closed: Conns, addr: Bytes, c: UpstreamPool.Conn, slots': Slots, closed': Conns)
    requires Was(slots, addr, c) && |Others(slots, addr)| < 256
    requires slots' == slots[addr := Others(slots, addr)][addr := Others(slots, addr) + [c]] && closed' == closed
    ensures Placed(slots, closed, addr, Some(Answered(true)), slots', closed')
  {
  }

  lemma PlacedClosed(slots: Slots, closed: Conns, addr: Bytes, c: UpstreamPool.Conn, fate: Option<Fate>)
    requires Was(slots, addr, c) && fate != Some(Unconnected) && fate != Some(Answered(true))
    ensures Placed(slots, closed, addr, fate, slots[addr := Others(slots, addr)], closed + {c})
  {
  }

  /** Counts the request and gets a connection for it, or takes the count back. */
  method Open(h: Handler, addr: Bytes, k: nat, connects: bool) returns (conn: Option<UpstreamPool.Conn>)
    requires h.Valid() && k < |h.upstreams|
    modifies h.pool, h.stats
    ensures h.Valid()
    ensures conn.None? <==> UpstreamPool.Queue(old(h.pool.slots), addr) == [] && !connects
    ensures conn.None? ==> Even(h)
    ensures conn.Some? ==> Holds(h, k, conn.value)
    ensures Took(h, addr, conn) && h.pool.closed == old(h.pool.closed)
    ensures h.stats.failures == if conn.Some? then old(h.stats.failures) else OneMore(old(h.stats.failures), k)
  {
    ghost var before := h.stats.active;
    h.stats.AddActive(k, 1);
    conn := h.pool.TryGet(addr);
    if conn.None? { conn := h.pool.Get(addr, connects); }
    if conn.None? {
      h.stats.AddActive(k, -1);
      h.stats.Fail(k);
      assert h.stats.active == before;
    }
  }

  /** Takes the count back and hands the connection back to the pool or drops it. */
  method Close(h: Handler, addr: Bytes, k: nat, conn: UpstreamPool.Conn, failed: bool, reuse: bool)
    requires h.Valid() && k < |h.upstreams| && conn in h.pool.inUse
    modifies h.pool, h.stats
    ensures h.Valid()
    ensures h.stats.active == old(h.stats.active)[k := old(h.stats.active)[k] - 1]
    ensures h.pool.inUse == old(h.pool.inUse) - {conn}
    ensures h.stats.failures == if failed then OneMore(old(h.stats.failures), k) else old(h.stats.failures)
    ensures var queue := UpstreamPool.Queue(old(h.pool.slots), addr);
      if reuse && |queue| < 256 then
        h.pool.slots == old(h.pool.slots)[addr := queue + [conn]] && h.pool.closed == old(h.pool.closed)
      else
        h.pool.slots == old(h.pool.slots) && h.pool.closed == old(h.pool.closed) + {conn}
  {
    if failed { h.stats.Fail(k); }
    h.stats.AddActive(k, -1);
    if reuse {
      h.pool.Release(addr, conn);
    } else {
      h.pool.Discard(addr, conn);
    }
  }

  /** The state between `Open` and `Close`. */
  twostate predicate Holds(h: Handler, k: nat, c: UpstreamPool.Conn)
    reads h.pool, h.stats
  {
    && k < |old(h.stats.active)|
    && h.stats.active == old(h.stats.active)[k := old(h.stats.active)[k] + 1]
    && c !in old(h.pool.inUse) && h.pool.inUse == old(h.pool.inUse) + {c}
  }

  /** The upstream got the rewritten head and then exactly the body. */
  predicate Forwarded(h: Handler, t: Turn) {
    && t.req.host in h.routes
    && var rules := h.routes[t.req.host].rules;
       t.sent == Rewritten(t.head, h.rewrite(t.req.path), rules, h.ip, KeepAlive(t.req)) + t.body
  }

  /** A turn that went to an upstream. */
  predicate Proxied(t: Turn) { t.fate.NoAnswer? || t.fate.Answered? }

  /** Writes the rewritten head to a new upstream stream. */
  method SendHead(h: Handler, buf: BytesMut, req: Request, w: World, work: BytesMut) returns (ok: bool, us: Sink)
    requires SaneRequests(h.requests) && ParseRequest(buf.data, h.requests) == Ok(req)
    requires req.host in h.routes && req.headersEnd <= |buf.data| && !TooMany(h, req, buf.data[..req.headersEnd])
    requires work != buf
    modifies work
    ensures fresh(us) && us.reliable == w.accepts && (!ok ==> !w.accepts)
    ensures var head := buf.data[..req.headersEnd];
      ok ==> us.written == Rewritten(head, h.rewrite(req.path), h.routes[req.host].rules, h.ip, KeepAlive(req))
  {
    hide ParseRequest, Rewritten, SkipList, SaneRequests;
    var raw, rules := buf.data[..req.headersEnd], h.routes[req.host].rules;
    RewriteRequest(raw, h.rewrite(req.path), rules, h.ip, KeepAlive(req), work);
    us := new Sink(w.accepts);
    ok := us.WriteAll(work.data);
  }

  /** Head, body and answer over one connection: a turn, or the reason why there is none. */
  method Exchange(h: Handler, client: Source, toClient: Sink, buf: BytesMut, req: Request, w: World, k: nat)
    returns (fate: Option<Fate>, exit: Exit, ghost turn: Option<Turn>)
    requires SaneRequests(h.requests) && H1Response.SaneResponses(h.responses) && w.room > 0
    requires ParseRequest(buf.data, h.requests) == Ok(req) && PlanOf(h, req, w) == Forward(k)
    modifies client, toClient, buf
    ensures fate.Some? <==> turn.Some?
    ensures turn.Some? ==>
      && turn.value.req == req && turn.value.fate == fate.value
      && (fate.value.NotSent? || fate.value.NoAnswer? || fate.value.Answered?)
      && Moved(h.requests, old(buf.data + client.unread), turn.value, buf.data + client.unread)
      && Explained(h, w, turn.value, toClient.reliable)
      && (if Proxied(turn.value) then Forwarded(h, turn.value) else turn.value.sent == "")
    ensures turn.None? ==>
      && exit in {BodyLost, Crashed}
      && Ends(h, w, old(buf.data + client.unread), req, exit, client.reliable, toClient.reliable)
  {
    hide ParseRequest, SaneRequests, TooMany, Moved, Rewritten, Stands, ChunkedRelay, PlanOf, AnswerEnds;
    hide H1Response.SaneResponses;
    ghost var s := buf.data + client.unread;
    StandsHere(h.requests, buf.data, client.unread, req);
    turn, exit := None, Crashed;
    if TooMany(h, req, buf.data[..req.headersEnd]) { return None, Crashed, None; }
    var work := new BytesMut();
    var ok, us := SendHead(h, buf, req, w, work);
    ghost var t;
    if !ok {
      var _ := Respond(toClient);
      t := SkipHead(h, buf, req, NotSent, s, client.unread);
      return Some(NotSent), exit, Some(t);
    }
    ok, t := TakeBody(h, client, us, buf, req, Answered(false));
    if !ok { return None, BodyLost, None; }
    work.Clear();
    var end := AwaitAnswer(h, toClient, work, req, w);
    if end.Crashed? { return None, Crashed, None; }
    fate := Some(if end.Relayed? then Answered(end.keepAlive) else NoAnswer(end.why));
    Refated(h.requests, s, t, buf.data + client.unread, fate.value);
    turn := Some(t.(fate := fate.value));
  }

  /** Where a proxied turn was taken from does not depend on what became of it. */
  lemma Refated(oracle: Oracle, s: Bytes, t: Turn, now: Bytes, fate: Fate)
    requires Moved(oracle, s, t, now) && Proxied(t) && (fate.NoAnswer? || fate.Answered?)
    ensures Moved(oracle, s, t.(fate := fate), now)
  {
    hide ParseRequest, ChunkedRelay;
  }

  /** The answer of an upstream that may send anything. */
  method AwaitAnswer(h: Handler, toClient: Sink, work: BytesMut, req: Request, w: World)
    returns (end: H1Response.ResponseEnd)
    requires H1Response.SaneResponses(h.responses) && w.room > 0 && work.data == ""
    modifies toClient, work
    ensures AnswerEnds(h, w, req, toClient.reliable, end)
  {
    hide H1Response.EndFits, H1Response.Delivered, H1Response.SaneResponses;
    var from := new Source(w.answer, w.finishes);
    ghost var resp, seen;
    end, resp, seen := H1Response.StreamResponse(toClient, from, KeepAlive(req), work, h.responses, w.room);
  }

  /** One turn leads from stream `s` to stream `now`. */
  ghost predicate Moved(oracle: Oracle, s: Bytes, t: Turn, now: Bytes) {
    TurnAt(oracle, s, t) && 0 < Taken(t) <= |s| && now == s[Taken(t)..]
  }

  /** One iteration of the loop is what the world had in store: a turn, after which the loop goes
      on or not, or the end of the loop on the spot. */
  ghost predicate Accounted(h: Handler, w: World, s: Bytes, req: Request, flow: Flow, turn: Option<Turn>,
                            now: Bytes, hears: bool, sure: bool)
  {
    match turn
    case Some(t) =>
      && t.req == req && Moved(h.requests, s, t, now) && Explained(h, w, t, sure)
      && (if Proxied(t) then Forwarded(h, t) else t.sent == "")
      && flow == Continue(t.GoesOn())
    case None => flow.Leave? && Ends(h, w, s, req, flow.exit, hears, sure)
  }

  /** What is done with the connection and the books after an exchange.  A panic unwinds past the
      books, and drops the connection. */
  method Finish(h: Handler, addr: Bytes, k: nat, conn: UpstreamPool.Conn, fate: Option<Fate>, exit: Exit,
                ghost slots: Slots, ghost closed: Conns)
    requires h.Valid() && k < |h.upstreams| && conn in h.pool.inUse
    requires Was(slots, addr, conn) && |Others(slots, addr)| < 256 && fate != Some(Unconnected)
    requires h.pool.slots == slots[addr := Others(slots, addr)] && h.pool.closed == closed
    modifies h.pool, h.stats
    ensures h.Valid() && h.pool.inUse == old(h.pool.inUse) - {conn}
    ensures var crashed := fate.None? && exit == Crashed;
      h.stats.active == if crashed then old(h.stats.active) else old(h.stats.active)[k := old(h.stats.active)[k] - 1]
    ensures Placed(slots, closed, addr, fate, h.pool.slots, h.pool.closed)
    ensures h.stats.failures == Failures(old(h.stats.failures), k, fate, exit)
  {
    hide UpstreamPool.UpstreamPool.Valid, Placed, Others, Was;
    if fate.None? && exit == Crashed {
      h.pool.Discard(addr, conn);
      PlacedClosed(slots, closed, addr, conn, fate);
    } else {
      var failed, reuse := fate.None? || !fate.value.Answered?, fate == Some(Answered(true));
      Close(h, addr, k, conn, failed, reuse);
      if reuse {
        PlacedBack(slots, closed, addr, conn, h.pool.slots, h.pool.closed);
      } else {
        PlacedClosed(slots, closed, addr, conn, fate);
      }
    }
  }

  lemma AccountedTurn(h: Handler, w: World, s: Bytes, req: Request, t: Turn, now: Bytes, hears: bool, sure: bool)
    requires t.req == req && Moved(h.requests, s, t, now) && Explained(h, w, t, sure)
    requires if Proxied(t) then Forwarded(h, t) else t.sent == ""
    ensures Accounted(h, w, s, req, Continue(t.GoesOn()), Some(t), now, hears, sure)
  {
    hide Moved, Explained, Forwarded;
  }

  lemma AccountedEnd(h: Handler, w: World, s: Bytes, req: Request, exit: Exit, now: Bytes, hears: bool, sure: bool)
    requires Ends(h, w, s, req, exit, hears, sure)
    ensures Accounted(h, w, s, req, Leave(exit), None, now, hears, sure)
  {
    hide Ends;
  }

  lemma NotConnected(h: Handler, w: World, t: Turn, sure: bool)
    requires t.fate == Unconnected && PlanOf(h, t.req, w).Forward? && !w.connects
    ensures Explained(h, w, t, sure) && !t.GoesOn() && !Proxied(t)
  {
    hide PlanOf;
  }

  /** From the balancer's choice to the end of the response. */
  method Proxy(h: Handler, client: Source, toClient: Sink, buf: BytesMut, req: Request, w: World, k: nat)
    returns (flow: Flow, ghost turn: Option<Turn>)
    requires h.Valid() && k < |h.upstreams| && w.room > 0
    requires ParseRequest(buf.data, h.requests) == Ok(req) && PlanOf(h, req, w) == Forward(k)
    modifies client, toClient, buf, h.pool, h.stats
    ensures h.Valid()
    ensures flow != Leave(Crashed) ==> Even(h)
    ensures flow == Leave(Crashed) ==> Leaked(h)
    ensures flow.Leave? ==> flow.exit in {BodyLost, Crashed}
    ensures var fate := if turn.None? then None else Some(turn.value.fate);
      && Placed(old(h.pool.slots), old(h.pool.closed), h.upstreams[k], fate, h.pool.slots, h.pool.closed)
      && h.stats.failures == Failures(old(h.stats.failures), k, fate, if flow.Leave? then flow.exit else Finished)
    ensures Accounted(h, w, old(buf.data + client.unread), req, flow, turn, buf.data + client.unread,
                      client.reliable, toClient.reliable)
  {
    hide ParseRequest, Moved, PlanOf, Explained, Forwarded, Ends, Accounted, UpstreamPool.UpstreamPool.Valid;
    hide Placed, Others, Was;
    ghost var s := buf.data + client.unread;
    ghost var slots, closed := h.pool.slots, h.pool.closed;
    var addr := h.upstreams[k];
    var got := Open(h, addr, k, w.connects);
    if got.None? {
      var _ := Respond(toClient);
      ghost var t := SkipHead(h, buf, req, Unconnected, s, client.unread);
      NotConnected(h, w, t, toClient.reliable);
      PlacedNowhere(slots, closed, addr);
      AccountedTurn(h, w, s, req, t, buf.data + client.unread, client.reliable, toClient.reliable);
      return Continue(false), Some(t);
    }
    var fate, exit;
    fate, exit, turn := Exchange(h, client, toClient, buf, req, w, k);
    assert Holds(h, k, got.value);
    Finish(h, addr, k, got.value, fate, exit, slots, closed);
    if fate.None? {
      AccountedEnd(h, w, s, req, exit, buf.data + client.unread, client.reliable, toClient.reliable);
      return Leave(exit), turn;
    }
    AccountedTurn(h, w, s, req, turn.value, buf.data + client.unread, client.reliable, toClient.reliable);
    flow := Continue(KeepAlive(req) && fate.value == Answered(true));
  }

  /** Answers without an upstream.  `must` says that a failed write ends the connection. */
  method AnswerLocally(h: Handler, client: Source, toClient: Sink, buf: BytesMut, req: Request, must: bool,
                       fate: Fate, w: World)
    returns (flow: Flow, ghost turn: Option<Turn>)
    requires SaneRequests(h.requests) && ParseRequest(buf.data, h.requests) == Ok(req)
    requires PlanOf(h, req, w) == if fate == Local then Reply(must) else Refuse
    requires fate == Local || (fate == Refused && !must)
    modifies toClient, buf
    ensures flow.Leave? ==> flow.exit == Broken
    ensures Accounted(h, w, old(buf.data + client.unread), req, flow, turn, buf.data + client.unread,
                      client.reliable, toClient.reliable)
  {
    hide ParseRequest, TurnAt, Moved, PlanOf, Ends, Stands;
    ghost var s := buf.data + client.unread;
    var ok := Respond(toClient);
    if must && !ok {
      LeavesHere(h, w, buf.data, client.unread, req, Broken, client.reliable, toClient.reliable);
      return Leave(Broken), None;
    }
    ghost var t := SkipHead(h, buf, req, fate, s, client.unread);
    return Continue(KeepAlive(req) && fate == Local), Some(t);
  }

  /** The loop may be left in front of the request in the buffer. */
  lemma LeavesHere(h: Handler, w: World, buf: Bytes, unread: Bytes, req: Request, exit: Exit, hears: bool, sure: bool)
    requires SaneRequests(h.requests) && ParseRequest(buf, h.requests) == Ok(req)
    requires (exit == Broken && !sure) || (exit == Tunnel && PlanOf(h, req, w).HandOver?)
    ensures Ends(h, w, buf + unread, req, exit, hears, sure)
    ensures forall now :: Accounted(h, w, buf + unread, req, Leave(exit), None, now, hears, sure)
  {
    hide ParseRequest, PlanOf, Stands, SaneRequests;
    StandsHere(h.requests, buf, unread, req);
  }

  /** The questions asked before an upstream is, in the order of the source, with the interim
      answer to an expectation in between; `ok` says that this was sent if it was due. */
  method Decide(h: Handler, toClient: Sink, req: Request, w: World) returns (plan: Plan, ok: bool)
    modifies toClient
    ensures if ok then plan == PlanOf(h, req, w) else !toClient.reliable
    ensures var due := req.expectContinue && req.host in h.routes && !(h.metrics && req.path == "/__eclihalo/metrics");
      ok ==> toClient.written == old(toClient.written) + (if due then "HTTP/1.1 100 Continue\r\n\r\n" else "")
  {
    ok := true;
    assert toClient.written + "" == toClient.written;
    if h.metrics && req.path == METRICS_PATH { return Reply(true), ok; }
    if req.host !in h.routes { return Refuse, ok; }
    var route := h.routes[req.host];
    if req.expectContinue {
      ok := toClient.WriteAll("HTTP/1.1 100 Continue\r\n\r\n");
      if !ok { return Refuse, false; }
    }
    if route.staticFiles && Safe(req) && (w.static_ != Missing || route.upstreams == []) {
      return Reply(w.static_ == Full || w.static_ == Sendfile), ok;
    }
    if !w.admitted { return Refuse, ok; }
    if req.method_ == Connect || Upgrades(req, route) { return HandOver, ok; }
    if route.cache && Safe(req) && w.cached { return Reply(true), ok; }
    if w.pick.None? { return Refuse, ok; }
    plan := Forward(w.pick.value);
  }

  /** Everything that may answer, or end the connection, before an upstream is asked; None
      means that the request is to be proxied. */
  method BeforeProxy(h: Handler, client: Source, toClient: Sink, buf: BytesMut, req: Request, w: World)
    returns (flow: Option<Flow>, ghost turn: Option<Turn>)
    requires SaneRequests(h.requests) && ParseRequest(buf.data, h.requests) == Ok(req)
    modifies toClient, buf
    ensures flow.None? ==> buf.data == old(buf.data) && PlanOf(h, req, w).Forward?
    ensures flow.Some? ==>
      && (flow.value.Leave? ==> flow.value.exit in {Broken, Tunnel})
      && (PlanOf(h, req, w).Forward? ==> flow.value == Leave(Broken))
      && Accounted(h, w, old(buf.data + client.unread), req, flow.value, turn, buf.data + client.unread,
                   client.reliable, toClient.reliable)
  {
    hide ParseRequest, Accounted, SaneRequests, PlanOf;
    turn := None;
    var plan, ok := Decide(h, toClient, req, w);
    if !ok {
      LeavesHere(h, w, buf.data, client.unread, req, Broken, client.reliable, toClient.reliable);
      return Some(Leave(Broken)), None;
    }
    match plan {
      case Forward(_) => return None, None;
      case HandOver =>
        LeavesHere(h, w, buf.data, client.unread, req, Tunnel, client.reliable, toClient.reliable);
        return Some(Leave(Tunnel)), None;
      case _ =>
        var f;
        var must, fate := plan == Reply(true), if plan.Refuse? then Refused else Local;
        f, turn := AnswerLocally(h, client, toClient, buf, req, must, fate, w);
        flow := Some(f);
    }
  }

  ghost predicate WorldOk(h: Handler, w: World) {
    w.room > 0 && (w.pick.Some? ==> w.pick.value < |h.upstreams|)
  }

  /** The body of the loop: one request, from its parsed head to the end of the answer. */
  method OneRequest(h: Handler, client: Source, toClient: Sink, buf: BytesMut, req: Request, w: World)
    returns (flow: Flow, ghost turn: Option<Turn>)
    requires h.Valid() && WorldOk(h, w) && ParseRequest(buf.data, h.requests) == Ok(req)
    modifies client, toClient, buf, h.pool, h.stats
    ensures h.Valid()
    ensures flow != Leave(Crashed) ==> Even(h)
    ensures flow == Leave(Crashed) ==> Leaked(h)
    ensures flow.Leave? ==> flow.exit in {Broken, Tunnel, BodyLost, Crashed}
    ensures Accounted(h, w, old(buf.data + client.unread), req, flow, turn, buf.data + client.unread,
                      client.reliable, toClient.reliable)
  {
    hide ParseRequest, Accounted;
    var early;
    early, turn := BeforeProxy(h, client, toClient, buf, req, w);
    if early.Some? { return early.value, turn; }
    flow, turn := Proxy(h, client, toClient, buf, req, w, w.pick.value);
  }

  datatype Awaited = Got(req: Request) | Stop(exit: Exit)

  /** Reads until the buffer starts with a whole head, or there is a reason not to. */
  method AwaitRequest(h: Handler, client: Source, toClient: Sink, buf: BytesMut, room: nat) returns (a: Awaited)
    requires SaneRequests(h.requests) && room > 0
    modifies client, toClient, buf
    ensures buf.data + client.unread == old(buf.data + client.unread)
    ensures a.Got? ==> ParseRequest(buf.data, h.requests) == Ok(a.req)
    ensures a.Stop? ==> a.exit in {EndOfStream, HeadTooLarge, BadRequest, Broken}
    ensures a.Stop? ==> Hopeless(h.requests, buf.data, client.unread, a.exit)
    ensures a == Stop(Broken) ==> !client.reliable
  {
    hide RequestFast;
    while true
      invariant buf.data + client.unread == old(buf.data + client.unread)
      decreases |client.unread|
    {
      HeadInside(buf.data, h.requests);
      var parsed := ParseRequestFast(buf.data);
      if !parsed.Ok? { parsed := h.requests(buf.data); }
      if parsed.Ok? { return Got(parsed.value); }
      if parsed == Invalid {
        var _ := Respond(toClient);
        return Stop(BadRequest);
      }
      if |buf.data| >= MAX_HEADERS {
        var _ := Respond(toClient);
        return Stop(HeadTooLarge);
      }
      var ok, slice := client.Read(room);
      if !ok { return Stop(Broken); }
      if slice == "" { return Stop(EndOfStream); }
      Assoc(buf.data, slice, client.unread);
      buf.Extend(slice);
    }
  }

  /** What the buffer looked like when the loop gave up on it. */
  ghost predicate Hopeless(oracle: Oracle, buf: Bytes, unread: Bytes, exit: Exit) {
    match exit
    case EndOfStream => unread == "" && |buf| < MAX_HEADERS && ParseRequest(buf, oracle) == Incomplete
    case HeadTooLarge => |buf| >= MAX_HEADERS && ParseRequest(buf, oracle) == Incomplete
    case BadRequest => ParseRequest(buf, oracle) == Invalid
    case _ => true
  }

  // ---------------------------------------------------------------- whole runs

  /** The surroundings of a whole run: one world for each request. */
  type Worlds = nat -> World

  /** Each turn is what its world had in store, and what was proxied arrived as it should. */
  ghost predicate Log(h: Handler, worlds: Worlds, log: seq<Turn>, sure: bool) {
    forall i | 0 <= i < |log| ::
      && Explained(h, worlds(i), log[i], sure)
      && (if Proxied(log[i]) then Forwarded(h, log[i]) else log[i].sent == "")
  }

  predicate AllGoOn(log: seq<Turn>) {
    forall i | 0 <= i < |log| :: log[i].GoesOn()
  }

  /** Only the last turn ends the loop. */
  predicate LastStops(log: seq<Turn>) {
    log != [] && AllGoOn(log[..|log| - 1]) && !log[|log| - 1].GoesOn()
  }

  /** What is true of a run from stream `s`: `log` lists the requests in the order in which they
      stand in the stream, each taken where the one before ended, each with the fate its world
      had in store; and the run ended for the reason `exit` in front of `rest`. */
  ghost predicate RunOk(h: Handler, worlds: Worlds, s: Bytes, hears: bool, sure: bool,
                        exit: Exit, log: seq<Turn>, rest: Bytes, last: Bytes)
  {
    && Run(h.requests, s, log, rest) && Log(h, worlds, log, sure)
    && match exit
       case Finished => LastStops(log)
       case Tunnel => AllGoOn(log) && exists req :: Ends(h, worlds(|log|), rest, req, exit, hears, sure)
       case BodyLost => AllGoOn(log) && exists req :: Ends(h, worlds(|log|), rest, req, exit, hears, sure)
       case Crashed => AllGoOn(log) && exists req :: Ends(h, worlds(|log|), rest, req, exit, hears, sure)
       case Broken => AllGoOn(log) && !(hears && sure)
       case _ => AllGoOn(log) && last <= rest && Hopeless(h.requests, last, rest[|last|..], exit)
  }

  /** No route names more than 24 headers to set or remove, and no upstream answers with a status
      line without header line. */
  ghost predicate Careful(h: Handler, worlds: Worlds) {
    && (forall host | host in h.routes :: Few(h.routes[host].rules))
    && forall i :: AnswerHead(worlds(i)) != Panicked
  }

  predicate Few(rules: Rules) { |rules.setRequest| + |rules.removeRequest| <= 24 }

  /** What the fast parser makes of the whole answer. */
  function AnswerHead(w: World): Parsed<Response> { ResponseFast(w.answer) }

  lemma FewFit(h: Handler, req: Request, head: Bytes)
    requires req.host in h.routes && Few(h.routes[req.host].rules)
    ensures !TooMany(h, req, head)
  {
    hide HasForwarded;
  }

  /** Nothing else makes a run panic. */
  lemma CarefulRunsOn(h: Handler, worlds: Worlds, w: World, s: Bytes, req: Request, hears: bool, sure: bool, n: nat)
    requires Careful(h, worlds) && w == worlds(n)
    ensures !Ends(h, w, s, req, Crashed, hears, sure)
  {
    hide Stands, TooMany, ResponseFast, H1Response.EndFits;
    assert AnswerHead(worlds(n)) != Panicked;
    if Ends(h, w, s, req, Crashed, hears, sure) {
      var head := s[..req.headersEnd];
      FewFit(h, req, head);
      var resp, seen :| H1Response.EndFits(
        w.answer, h.responses, w.room, sure && w.finishes, KeepAlive(req), H1Response.Crashed, resp, seen);
      H1Response.CrashIsSent(w.answer, h.responses, w.room, sure && w.finishes, KeepAlive(req), resp, seen);
    }
  }

  /** `serve`.  Unless it panics, every counter and the set of connections in use are as before;
      and it does not panic on its own account. */
  method Serve(h: Handler, client: Source, toClient: Sink, buf: BytesMut, worlds: Worlds)
    returns (exit: Exit, ghost log: seq<Turn>, ghost rest: Bytes, ghost last: Bytes)
    requires h.Valid() && forall i :: WorldOk(h, worlds(i))
    modifies client, toClient, buf, h.pool, h.stats
    ensures h.Valid()
    ensures exit != Crashed ==> Even(h)
    ensures exit == Crashed ==> Leaked(h)
    ensures Careful(h, worlds) ==> exit != Crashed
    ensures RunOk(h, worlds, old(buf.data + client.unread), client.reliable, toClient.reliable, exit, log, rest, last)
    ensures exit in {EndOfStream, HeadTooLarge, BadRequest} ==> buf.data == last && client.unread == rest[|last|..]
  {
    hide ParseRequest, TurnAt, Hopeless, Run, Forwarded, Explained, Ends, Log, AllGoOn, RunOk, Turn.GoesOn, Careful;
    ghost var s := buf.data + client.unread;
    var keepAlive := true;
    log, rest, last := [], s, "";
    RunNone(h, worlds, s, toClient.reliable);
    var n := 0;
    while keepAlive
      invariant h.Valid() && Even(h) && n == |log|
      invariant Run(h.requests, s, log, rest) && Log(h, worlds, log, toClient.reliable)
      invariant keepAlive ==> buf.data + client.unread == rest && AllGoOn(log)
      invariant !keepAlive ==> LastStops(log)
      decreases keepAlive, |rest|
    {
      var a := AwaitRequest(h, client, toClient, buf, worlds(n).room);
      if a.Stop? {
        last := buf.data;
        assert rest[|last|..] == client.unread;
        RunStopped(h, worlds, s, client.reliable, toClient.reliable, a.exit, log, rest, last);
        return a.exit, log, rest, last;
      }
      ghost var turn;
      var flow;
      flow, turn := OneRequest(h, client, toClient, buf, a.req, worlds(n));
      if flow.Leave? {
        if Careful(h, worlds) && flow.exit == Crashed {
          CarefulRunsOn(h, worlds, worlds(n), rest, a.req, client.reliable, toClient.reliable, n);
        }
        RunLeft(h, worlds, s, client.reliable, toClient.reliable, flow.exit, log, rest, a.req);
        return flow.exit, log, rest, last;
      }
      RunAppend(h.requests, s, log, rest, turn.value);
      LogAppend(h, worlds, log, turn.value, toClient.reliable);
      log, rest := log + [turn.value], rest[Taken(turn.value)..];
      n := n + 1;
      keepAlive := flow.keepAlive;
    }
    exit := Finished;
    RunFinished(h, worlds, s, client.reliable, toClient.reliable, log, rest);
  }

  lemma RunNone(h: Handler, worlds: Worlds, s: Bytes, sure: bool)
    ensures Run(h.requests, s, [], s) && Log(h, worlds, [], sure) && AllGoOn([])
  {
  }

  lemma LogAppend(h: Handler, worlds: Worlds, log: seq<Turn>, t: Turn, sure: bool)
    requires Log(h, worlds, log, sure) && AllGoOn(log)
    requires Explained(h, worlds(|log|), t, sure) && (if Proxied(t) then Forwarded(h, t) else t.sent == "")
    ensures Log(h, worlds, log + [t], sure)
    ensures if t.GoesOn() then AllGoOn(log + [t]) else LastStops(log + [t])
  {
    hide Explained, Forwarded, Turn.GoesOn;
    assert (log + [t])[..|log|] == log;
  }

  lemma RunStopped(h: Handler, worlds: Worlds, s: Bytes, hears: bool, sure: bool, exit: Exit,
                   log: seq<Turn>, rest: Bytes, last: Bytes)
    requires Run(h.requests, s, log, rest) && Log(h, worlds, log, sure) && AllGoOn(log)
    requires exit in {EndOfStream, HeadTooLarge, BadRequest, Broken} && (exit == Broken ==> !hears)
    requires last <= rest && Hopeless(h.requests, last, rest[|last|..], exit)
    ensures RunOk(h, worlds, s, hears, sure, exit, log, rest, last)
  {
    hide Run, Log, AllGoOn, Hopeless;
  }

  lemma RunLeft(h: Handler, worlds: Worlds, s: Bytes, hears: bool, sure: bool, exit: Exit,
                log: seq<Turn>, rest: Bytes, req: Request)
    requires Run(h.requests, s, log, rest) && Log(h, worlds, log, sure) && AllGoOn(log)
    requires exit in {Broken, Tunnel, BodyLost, Crashed} && Ends(h, worlds(|log|), rest, req, exit, hears, sure)
    ensures forall last :: RunOk(h, worlds, s, hears, sure, exit, log, rest, last)
  {
    hide Run, Log, AllGoOn, Stands, Hopeless;
  }

  lemma RunFinished(h: Handler, worlds: Worlds, s: Bytes, hears: bool, sure: bool, log: seq<Turn>, rest: Bytes)
    requires Run(h.requests, s, log, rest) && Log(h, worlds, log, sure) && LastStops(log)
    ensures forall last :: RunOk(h, worlds, s, hears, sure, Finished, log, rest, last)
  {
    hide Run, Log;
  }
}
