/** What becomes of each request of a run, told from the request, its route and the world alone. */
module H1FateLaws {
  import opened Text
  import opened Proto
  import opened H1Serve
  import H1Response
  import H1Rewrite
  import H1HeaderLaws
  import ProtoLaws

  predicate ForMetrics(h: Handler, req: Request) { h.metrics && req.path == "/__eclihalo/metrics" }

  predicate GetOrHead(req: Request) { req.method_ == Get || req.method_ == Head }

  /** A route serves files, the method asks for one, and either something other than "missing" was
      found or there is nobody else to ask. */
  predicate StaticAnswer(route: Route, req: Request, w: World) {
    route.staticFiles && GetOrHead(req) && (w.static_ != Missing || route.upstreams == [])
  }

  predicate Tunnels(route: Route, req: Request) {
    req.method_ == Connect
    || (route.websocket && req.upgrade.Some? && ContainsIc(req.upgrade.value, "websocket"))
  }

  predicate CacheHit(route: Route, req: Request, w: World) { route.cache && GetOrHead(req) && w.cached }

  /** An upstream is asked: a known host, nothing that is answered here, the limiter admits the
      request, no tunnel, and some upstream is healthy. */
  predicate AsksUpstream(h: Handler, req: Request, w: World) {
    && !ForMetrics(h, req) && req.host in h.routes
    && var route := h.routes[req.host];
    && !StaticAnswer(route, req, w) && w.admitted && !Tunnels(route, req)
    && !CacheHit(route, req, w) && w.pick.Some?
  }

  /** The proxy answers and keeps the connection: metrics, a file, or, once the limiter has
      admitted the request, a cached answer. */
  predicate AnswersItself(h: Handler, req: Request, w: World) {
    || ForMetrics(h, req)
    || (req.host in h.routes &&
          var route := h.routes[req.host];
          StaticAnswer(route, req, w) || (w.admitted && !Tunnels(route, req) && CacheHit(route, req, w)))
  }

  /** The proxy refuses and closes: an unknown host, the limiter, or no healthy upstream. */
  predicate Refuses(h: Handler, req: Request, w: World) {
    && !ForMetrics(h, req)
    && (req.host in h.routes ==>
          var route := h.routes[req.host];
          && !StaticAnswer(route, req, w)
          && (!w.admitted || (!Tunnels(route, req) && !CacheHit(route, req, w) && w.pick.None?)))
  }

  /** The connection is handed over. */
  predicate HandsOver(h: Handler, req: Request, w: World) {
    && !ForMetrics(h, req) && req.host in h.routes
    && var route := h.routes[req.host];
    !StaticAnswer(route, req, w) && w.admitted && Tunnels(route, req)
  }

  /** The four cases exclude each other and leave nothing out, and are what the plan says. */
  lemma PlanMeans(h: Handler, req: Request, w: World)
    ensures PlanOf(h, req, w).Forward? <==> AsksUpstream(h, req, w)
    ensures PlanOf(h, req, w).Reply? <==> AnswersItself(h, req, w)
    ensures PlanOf(h, req, w).Refuse? <==> Refuses(h, req, w)
    ensures PlanOf(h, req, w).HandOver? <==> HandsOver(h, req, w)
  {
    hide ContainsIc;
  }

  /** A turn of a run, its request `req` in the world `w`: which fates it can have, and what
      leaves the stream and reaches an upstream. */
  predicate Fits(h: Handler, w: World, t: Turn) {
    && (t.fate == Unconnected || t.fate == NotSent || Proxied(t) <==> AsksUpstream(h, t.req, w))
    && (t.fate == Local <==> AnswersItself(h, t.req, w))
    && (t.fate == Refused <==> Refuses(h, t.req, w))
    && !HandsOver(h, t.req, w)
    && (!Proxied(t) ==> t.sent == "")
  }

  lemma TurnFits(h: Handler, w: World, t: Turn, sure: bool)
    requires Explained(h, w, t, sure) && (!Proxied(t) ==> t.sent == "")
    ensures Fits(h, w, t)
  {
    PlanMeans(h, t.req, w);
    hide PlanOf, AsksUpstream, AnswersItself, Refuses, HandsOver, TooMany, AnswerEnds;
  }

  /** In every run: a request goes to an upstream if and only if the limiter admits it and the rest
      of `AsksUpstream` holds, it is answered or refused here if and only if the rules say so, and
      a tunnel is opened only for a request that asks for one. */
  lemma FatesFit(h: Handler, worlds: Worlds, s: Bytes, hears: bool, sure: bool,
                 exit: Exit, log: seq<Turn>, rest: Bytes, last: Bytes)
    requires RunOk(h, worlds, s, hears, sure, exit, log, rest, last)
    ensures forall i | 0 <= i < |log| :: Fits(h, worlds(i), log[i])
    ensures exit == Tunnel ==> exists req :: Stands(h.requests, rest, req) && HandsOver(h, req, worlds(|log|))
    ensures exit in {BodyLost, Crashed} ==>
      exists req :: Stands(h.requests, rest, req) && AsksUpstream(h, req, worlds(|log|))
  {
    hide Explained, Forwarded, Run, AllGoOn, LastStops, Hopeless, Stands, PlanOf, TooMany, AnswerEnds;
    hide AsksUpstream, AnswersItself, Refuses, HandsOver, Fits;
    forall i | 0 <= i < |log| ensures Fits(h, worlds(i), log[i]) { TurnFits(h, worlds(i), log[i], sure); }
    if exit in {Tunnel, BodyLost, Crashed} {
      var req :| Ends(h, worlds(|log|), rest, req, exit, hears, sure);
      PlanMeans(h, req, worlds(|log|));
      assert Stands(h.requests, rest, req);
    }
  }

  /** A request goes on with the next only if it is of version 1.1, does not ask to close, and was
      answered here or with a reusable response; the run ends with the first turn for which that
      is not so. */
  lemma StopsAt(h: Handler, worlds: Worlds, s: Bytes, hears: bool, sure: bool,
                exit: Exit, log: seq<Turn>, rest: Bytes, last: Bytes, i: nat)
    requires RunOk(h, worlds, s, hears, sure, exit, log, rest, last) && i < |log|
    ensures i == |log| - 1 && exit == Finished <==>
      !(!log[i].req.close && log[i].req.version == 1 && (log[i].fate == Local || log[i].fate == Answered(true)))
  {
    hide Explained, Forwarded, Run, Hopeless, Ends, Log;
    if i < |log| - 1 && exit == Finished { assert log[i] == log[..|log| - 1][i]; }
  }

  /** A request the limiter refuses, for a known host and not answered before the limiter is
      asked, is refused: only its head is taken, no upstream sees anything, and the run stops. */
  lemma LimitedIsRefused(h: Handler, worlds: Worlds, s: Bytes, hears: bool, sure: bool,
                         exit: Exit, log: seq<Turn>, rest: Bytes, last: Bytes, i: nat)
    requires RunOk(h, worlds, s, hears, sure, exit, log, rest, last) && i < |log|
    requires var req := log[i].req;
      && req.host in h.routes && !worlds(i).admitted && !ForMetrics(h, req)
      && !StaticAnswer(h.routes[req.host], req, worlds(i))
    ensures log[i].fate == Refused && log[i].body == "" && log[i].sent == ""
    ensures i == |log| - 1 && exit == Finished
  {
    FatesFit(h, worlds, s, hears, sure, exit, log, rest, last);
    StopsAt(h, worlds, s, hears, sure, exit, log, rest, last, i);
    assert Fits(h, worlds(i), log[i]);
    TurnsBodies(h.requests, s, log, rest, i);
    hide Run, RunOk, Log;
  }

  lemma {:induction false} TurnsBodies(oracle: Oracle, s: Bytes, log: seq<Turn>, rest: Bytes, i: nat)
    requires Run(oracle, s, log, rest) && i < |log|
    ensures log[i].HeadOnly() ==> log[i].body == ""
    decreases i
  {
    hide ParseRequest;
    if i > 0 { TurnsBodies(oracle, s[Taken(log[0])..], log[1..], rest, i - 1); }
  }

  /** The connection to an upstream can be used again, and the client's is kept, only if neither
      side asked to close and the end of the response can be told from its head. */
  lemma AnsweredMeans(h: Handler, w: World, t: Turn, sure: bool)
    requires Explained(h, w, t, sure) && t.fate.Answered?
    ensures exists resp, seen :: SaysReuse(h, w, t, resp, seen)
  {
    hide PlanOf, TooMany, H1Response.ParseResponse;
    var end := H1Response.Relayed(t.fate.keepAlive);
    var resp, seen :| H1Response.EndFits(
      w.answer, h.responses, w.room, sure && w.finishes, KeepAlive(t.req), end, resp, seen);
    assert SaysReuse(h, w, t, resp, seen);
  }

  /** The head of the answer, complete after `seen` bytes, is `resp`. */
  predicate SaysReuse(h: Handler, w: World, t: Turn, resp: Response, seen: nat)
    requires t.fate.Answered?
  {
    && seen <= |w.answer| && H1Response.ParseResponse(w.answer[..seen], h.responses) == Ok(resp)
    && t.fate.keepAlive ==
         (!t.req.close && t.req.version == 1 && !resp.close && (resp.chunked || resp.contentLength.Some?))
  }

  /** The names to be skipped are too many when there are more than 32 of them: seven fixed ones,
      the configured ones, and perhaps x-forwarded-for. */
  lemma TooManyIff(h: Handler, req: Request, head: Bytes)
    requires req.host in h.routes
    ensures var rules := h.routes[req.host].rules;
      TooMany(h, req, head) <==>
        var forwarded := !H1HeaderLaws.IsKey(rules, "x-forwarded-for") && !ProtoLaws.Mentions(head, "x-forwarded-for");
        7 + |rules.removeRequest| + |rules.setRequest| + (if forwarded then 1 else 0) > 32
  {
    H1HeaderLaws.SkipCount(head, h.routes[req.host].rules);
    hide H1Rewrite.SkipList, ProtoLaws.Mentions;
  }

  /** The loop gives up on a head at 16 KiB, and at the end of the stream on what is left. */
  lemma GivesUp(h: Handler, worlds: Worlds, s: Bytes, hears: bool, sure: bool,
                exit: Exit, log: seq<Turn>, rest: Bytes, last: Bytes)
    requires RunOk(h, worlds, s, hears, sure, exit, log, rest, last)
    ensures exit == HeadTooLarge ==> last <= rest && |last| >= 16384 && ParseRequest(last, h.requests) == Incomplete
    ensures exit == EndOfStream ==> last == rest && |last| < 16384 && ParseRequest(last, h.requests) == Incomplete
    ensures exit == BadRequest ==> last <= rest && ParseRequest(last, h.requests) == Invalid
    ensures exit == Broken ==> !(hears && sure)
  {
    hide Run, Log, AllGoOn, ParseRequest, Ends;
    if exit == EndOfStream { assert rest == last + rest[|last|..]; }
  }

  /** The general parser is asked exactly when the fast one does not accept. */
  lemma GeneralAsked(oracle: Oracle, buf: Bytes)
    ensures ParseRequest(buf, oracle) == match RequestFast(buf) case Ok(req) => Ok(req) case _ => oracle(buf)
  {
    hide RequestFast;
  }
}
