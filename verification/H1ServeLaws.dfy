/** Pipelining: what the runs of the keep-alive loop say about a stream of requests. */
module H1ServeLaws {
  import opened Text
  import opened Proto
  import opened H1Relay
  import opened H1Serve
  import H1ChunkLaws
  import H1Rewrite
  import H1RewriteLaws

  /** A request as the client meant it. */
  datatype Frame = Frame(req: Request, head: Bytes, body: Bytes)

  /** A chunked body the relays pass on, and its bytes. */
  predicate Writes(b: H1ChunkLaws.Body, body: Bytes) {
    H1ChunkLaws.BodyOk(b) && H1ChunkLaws.SizesFit(b) && b.trailers == "" && body == H1ChunkLaws.BodyBytes(b)
  }

  /** The body is exactly what the head announces; section 6.3 of RFC 9112. */
  ghost predicate Framed(req: Request, body: Bytes) {
    if req.chunked then
      exists b :: Writes(b, body)
    else if req.contentLength.Some? then |body| == req.contentLength.value
    else body == ""
  }

  /** The general parser waits for the rest of a head, as the fast one does. */
  ghost predicate Quiet(oracle: Oracle, head: Bytes) {
    forall k {:trigger head[..k]} :: 0 <= k < |head| ==> oracle(head[..k]) == Incomplete
  }

  ghost predicate FrameOk(oracle: Oracle, f: Frame) {
    && RequestFast(f.head) == Ok(f.req) && f.req.headersEnd == |f.head| <= MAX_HEADERS
    && Framed(f.req, f.body)
    && Quiet(oracle, f.head)
  }

  function FrameBytes(f: Frame): Bytes { f.head + f.body }

  function Stream(frames: seq<Frame>): Bytes {
    if frames == [] then "" else FrameBytes(frames[0]) + Stream(frames[1..])
  }

  ghost predicate AllOk(oracle: Oracle, frames: seq<Frame>) { forall f | f in frames :: FrameOk(oracle, f) }

  /** Every request that no upstream took came without a body. */
  predicate LocalsBodyless(frames: seq<Frame>, log: seq<Turn>) {
    forall i | 0 <= i < |log| && i < |frames| :: log[i].HeadOnly() ==> frames[i].body == ""
  }

  /** Turn by turn the frames, as far as both go. */
  predicate Matches(frames: seq<Frame>, log: seq<Turn>) {
    forall i | 0 <= i < |log| && i < |frames| ::
      log[i].req == frames[i].req && log[i].head == frames[i].head && log[i].body == frames[i].body
  }

  // ---------------------------------------------------------------- one frame

  /** Whatever prefix of the stream is in the buffer, the parser sees the first frame or waits. */
  lemma ParseAtFrame(oracle: Oracle, f: Frame, tail: Bytes, p: Bytes)
    requires FrameOk(oracle, f) && p <= f.head + tail
    ensures ParseRequest(p, oracle) == if |f.head| <= |p| then Ok(f.req) else Incomplete
  {
    hide RequestFast;
    var s := f.head + tail;
    if |f.head| <= |p| {
      assert p == f.head + p[|f.head|..];
      RequestFastStable(f.head, p[|f.head|..]);
    } else {
      assert p == f.head[..|p|];
      RequestFastWaits(f.head, |p|);
    }
  }

  /** The relay of a well-framed body takes exactly the body. */
  lemma BodyIsTaken(req: Request, body: Bytes, tail: Bytes)
    requires Framed(req, body)
    ensures BodyTaken(body + tail, req, false) == body
  {
    hide ChunkedRelay;
    assert (body + tail)[..|body|] == body;
    if req.chunked {
      var b :| Writes(b, body);
      H1ChunkLaws.BodyRelayedIff(b, tail, false);
    }
  }

  /** A turn taken where a frame stands is that frame; the stream goes on after it, or, when a
      request with a body was answered locally, inside it. */
  lemma TurnIsFrame(oracle: Oracle, f: Frame, tail: Bytes, t: Turn)
    requires FrameOk(oracle, f) && TurnAt(oracle, FrameBytes(f) + tail, t)
    ensures t.req == f.req && t.head == f.head
    ensures Taken(t) <= |FrameBytes(f) + tail|
    ensures !t.HeadOnly() || f.body == "" ==> t.body == f.body && (FrameBytes(f) + tail)[Taken(t)..] == tail
    ensures t.HeadOnly() ==> (FrameBytes(f) + tail)[Taken(t)..] == f.body + tail
  {
    hide RequestFast, ParseRequest, ChunkedRelay, Quiet, Framed;
    var s := FrameBytes(f) + tail;
    Assoc(f.head, f.body, tail);
    var p: Bytes :|
      && p <= s && ParseRequest(p, oracle) == Ok(t.req)
      && 0 < t.req.headersEnd <= |p|
      && t.head == s[..t.req.headersEnd]
      && t.body == BodyTaken(s[t.req.headersEnd..], t.req, t.HeadOnly());
    ParseAtFrame(oracle, f, f.body + tail, p);
    assert s[|f.head|..] == f.body + tail;
    BodyIsTaken(f.req, f.body, tail);
    assert s[|FrameBytes(f)|..] == tail;
  }

  /** After a local answer the loop is in step with the client exactly if there was no body. */
  lemma LocalInStepIff(oracle: Oracle, f: Frame, tail: Bytes, t: Turn)
    requires FrameOk(oracle, f) && TurnAt(oracle, FrameBytes(f) + tail, t) && t.HeadOnly()
    ensures (FrameBytes(f) + tail)[Taken(t)..] == tail <==> f.body == ""
  {
    hide FrameOk, TurnAt;
    TurnIsFrame(oracle, f, tail, t);
  }

  // ---------------------------------------------------------------- whole runs

  /** In every run over a stream of requests, however it was cut into reads, the turns are the
      requests, one for one, in order, each with exactly its own body. */
  lemma {:induction false} InOrder(oracle: Oracle, frames: seq<Frame>, tail: Bytes, log: seq<Turn>, rest: Bytes)
    requires AllOk(oracle, frames) && LocalsBodyless(frames, log)
    requires Run(oracle, Stream(frames) + tail, log, rest)
    ensures Matches(frames, log)
    ensures |log| <= |frames| ==> rest == Stream(frames[|log|..]) + tail
    ensures |log| > |frames| ==> Run(oracle, tail, log[|frames|..], rest)
    decreases |log|
  {
    hide FrameOk, TurnAt, FrameBytes;
    if log == [] {
      assert frames[0..] == frames;
      assert frames == [] ==> log[0..] == log;
    } else if frames == [] {
      assert "" + tail == tail && log[0..] == log;
    } else {
      var f, more := frames[0], frames[1..];
      assert f in frames && (forall x | x in more :: x in frames);
      Assoc(FrameBytes(f), Stream(more), tail);
      TurnIsFrame(oracle, f, Stream(more) + tail, log[0]);
      LocalsTail(frames, log);
      InOrder(oracle, more, tail, log[1..], rest);
      MatchesCons(frames, log);
      if |log| <= |frames| { assert frames[|log|..] == more[|log| - 1..]; }
      else { assert log[|frames|..] == log[1..][|more|..]; }
    }
  }

  lemma LocalsTail(frames: seq<Frame>, log: seq<Turn>)
    requires frames != [] && log != [] && LocalsBodyless(frames, log)
    ensures LocalsBodyless(frames[1..], log[1..])
    ensures log[0].HeadOnly() ==> frames[0].body == ""
  {
    forall i | 0 <= i < |log[1..]| && i < |frames[1..]| ensures log[1..][i].HeadOnly() ==> frames[1..][i].body == "" {
      assert log[1..][i] == log[i + 1] && frames[1..][i] == frames[i + 1];
    }
  }

  lemma MatchesCons(frames: seq<Frame>, log: seq<Turn>)
    requires frames != [] && log != []
    requires log[0].req == frames[0].req && log[0].head == frames[0].head && log[0].body == frames[0].body
    requires Matches(frames[1..], log[1..])
    ensures Matches(frames, log)
  {
    forall i | 0 <= i < |log| && i < |frames|
      ensures log[i].req == frames[i].req && log[i].head == frames[i].head && log[i].body == frames[i].body
    {
      if i > 0 { assert log[i] == log[1..][i - 1] && frames[i] == frames[1..][i - 1]; }
    }
  }

  /** While a request is left, the loop does not stop for want of input, for the size of the
      head or for bad syntax. */
  lemma NotHopeless(oracle: Oracle, f: Frame, tail: Bytes, last: Bytes, exit: Exit)
    requires FrameOk(oracle, f) && last <= FrameBytes(f) + tail
    requires exit in {EndOfStream, HeadTooLarge, BadRequest}
    ensures !Hopeless(oracle, last, (FrameBytes(f) + tail)[|last|..], exit)
  {
    hide RequestFast, ParseRequest, Quiet, Framed;
    Assoc(f.head, f.body, tail);
    ParseAtFrame(oracle, f, f.body + tail, last);
  }

  /** Liveness: a run of `serve` that ends because the stream ended, or because of an oversized
      or malformed head, has answered every well-formed request in front of it. */
  lemma AllAnswered(oracle: Oracle, frames: seq<Frame>, tail: Bytes, log: seq<Turn>, rest: Bytes, last: Bytes,
                    exit: Exit)
    requires AllOk(oracle, frames) && LocalsBodyless(frames, log)
    requires Run(oracle, Stream(frames) + tail, log, rest)
    requires exit in {EndOfStream, HeadTooLarge, BadRequest}
    requires last <= rest && Hopeless(oracle, last, rest[|last|..], exit)
    ensures |frames| <= |log| && Matches(frames, log)
  {
    hide FrameOk, TurnAt, FrameBytes, Run, Hopeless;
    InOrder(oracle, frames, tail, log, rest);
    if |log| < |frames| {
      var left := frames[|log|..];
      var f := left[0];
      assert f == frames[|log|] && f in frames;
      Assoc(FrameBytes(f), Stream(left[1..]), tail);
      NotHopeless(oracle, f, Stream(left[1..]) + tail, last, exit);
    }
  }

  /** With nothing after the requests, every one is answered exactly once. */
  lemma ExactlyOnce(oracle: Oracle, frames: seq<Frame>, log: seq<Turn>, rest: Bytes, last: Bytes)
    requires AllOk(oracle, frames) && LocalsBodyless(frames, log)
    requires Run(oracle, Stream(frames), log, rest)
    requires last <= rest && Hopeless(oracle, last, rest[|last|..], EndOfStream)
    ensures |log| == |frames| && Matches(frames, log) && rest == ""
  {
    hide FrameOk, Stream, Run, Hopeless;
    assert Stream(frames) + "" == Stream(frames);
    AllAnswered(oracle, frames, "", log, rest, last, EndOfStream);
    InOrder(oracle, frames, "", log, rest);
    if |log| > |frames| { NoTurnInNothing(oracle, log[|frames|..], rest); }
    StreamNone(frames[|log|..]);
  }

  lemma NoTurnInNothing(oracle: Oracle, log: seq<Turn>, rest: Bytes)
    requires Run(oracle, "", log, rest)
    ensures log == []
  {
  }

  lemma StreamNone(frames: seq<Frame>)
    ensures frames == [] ==> Stream(frames) == ""
  {
  }

  // ---------------------------------------------------------------- what the upstream sees

  /** What the parser makes of the bytes sent for a proxied request. */
  function Seen(h: Handler, t: Turn): Request
    requires t.req.host in h.routes && |t.body| <= |t.sent|
  {
    var rules := h.routes[t.req.host].rules;
    var path := h.rewrite(t.req.path);
    Request(t.req.method_, if '\r' in path || '\n' in path then "/" else path, 1,
            HostOf(LeftTrimmed(rules.domain)), t.req.contentLength, false, !KeepAlive(t.req), None,
            t.req.expectContinue, |t.sent| - |t.body|)
  }

  /** The configuration of the request's route leaves framing alone. */
  predicate Plain(h: Handler, t: Turn) {
    && t.req.host in h.routes && H1RewriteLaws.GoodRules(h.routes[t.req.host].rules)
    && '\n' !in h.ip && Utf8(h.rewrite(t.req.path)) && ' ' !in h.rewrite(t.req.path)
  }

  /** The upstream receives the client's request with host, path and connection replaced, and
      the client's body right behind its head, whatever is sent after it. */
  lemma UpstreamSees(h: Handler, t: Turn, more: Bytes)
    requires Forwarded(h, t) && Plain(h, t)
    requires RequestFast(t.head) == Ok(t.req) && t.req.headersEnd == |t.head|
    ensures RequestFast(t.sent + more) == Ok(Seen(h, t))
    ensures (t.sent + more)[Seen(h, t).headersEnd..] == t.body + more
  {
    hide RequestFast, H1RewriteLaws.GoodRules, H1Rewrite.Rewritten, HostOf, LeftTrimmed, Utf8;
    var rules := h.routes[t.req.host].rules;
    var path := h.rewrite(t.req.path);
    var out := H1Rewrite.Rewritten(t.head, path, rules, h.ip, KeepAlive(t.req));
    H1RewriteLaws.RewriteRoundTrip(t.head, path, rules, h.ip, KeepAlive(t.req));
    Assoc(out, t.body, more);
    RequestFastStable(out, t.body + more);
    assert (out + (t.body + more))[|out|..] == t.body + more;
  }

  /** An upstream that frames bodies as the proxy does takes exactly the client's body from its
      connection if and only if the body was not chunked, or a content-length beside the
      chunking happens to count its bytes: the rewritten head announces no chunking. */
  lemma BodySeenIff(h: Handler, f: Frame, t: Turn)
    requires FrameOk(h.requests, f) && t.req == f.req && t.head == f.head && t.body == f.body
    requires Forwarded(h, t) && Plain(h, t)
    ensures (forall more :: BodyTaken(t.body + more, Seen(h, t), false) == t.body)
      <==> !t.req.chunked || t.req.contentLength == Some(|t.body|)
  {
    hide RequestFast, H1RewriteLaws.GoodRules, H1Rewrite.Rewritten, HostOf, LeftTrimmed, Utf8, Quiet;
    var seen := Seen(h, t);
    if t.req.chunked { ChunkedNotEmpty(t.req, t.body); }
    if !t.req.chunked || t.req.contentLength == Some(|t.body|) {
      forall more: Bytes ensures BodyTaken(t.body + more, seen, false) == t.body {
        assert (t.body + more)[..|t.body|] == t.body;
      }
    } else {
      assert |BodyTaken(t.body + "!", seen, false)| != |t.body|;
    }
  }

  lemma ChunkedNotEmpty(req: Request, body: Bytes)
    requires Framed(req, body) && req.chunked
    ensures body != ""
  {
    var b :| Writes(b, body);
    assert |H1ChunkLaws.LastBytes(b)| >= 2;
  }

  /** What was sent for `t` reads as the client's request `f`, followed by its body. */
  predicate ArrivesAs(h: Handler, t: Turn, f: Frame) {
    && t.req.host in h.routes && |t.body| <= |t.sent|
    && RequestFast(t.sent) == Ok(Seen(h, t))
    && Seen(h, t).method_ == f.req.method_ && Seen(h, t).contentLength == f.req.contentLength
    && Seen(h, t).expectContinue == f.req.expectContinue && Seen(h, t).close == !KeepAlive(f.req)
    && t.sent[Seen(h, t).headersEnd..] == f.body
  }

  lemma ForwardedArrives(h: Handler, t: Turn, f: Frame)
    requires RequestFast(t.head) == Ok(t.req) && t.req.headersEnd == |t.head|
    requires t.req == f.req && t.head == f.head && t.body == f.body
    requires Forwarded(h, t) && Plain(h, t)
    ensures ArrivesAs(h, t, f)
  {
    hide RequestFast, HostOf, LeftTrimmed, Utf8, H1Rewrite.Rewritten, H1RewriteLaws.GoodRules;
    UpstreamSees(h, t, "");
    assert t.sent + "" == t.sent && t.body + "" == t.body;
  }

  lemma FrameHead(oracle: Oracle, f: Frame)
    requires FrameOk(oracle, f)
    ensures RequestFast(f.head) == Ok(f.req) && f.req.headersEnd == |f.head|
  {
    hide RequestFast, Quiet, Framed;
  }

  /** End to end: what a run of `serve` forwarded for each request of the client's stream
      arrives as that request. */
  lemma EachForwarded(h: Handler, worlds: Worlds, frames: seq<Frame>, tail: Bytes, log: seq<Turn>, rest: Bytes,
                      sure: bool)
    requires AllOk(h.requests, frames) && LocalsBodyless(frames, log)
    requires Run(h.requests, Stream(frames) + tail, log, rest)
    requires Log(h, worlds, log, sure)
    ensures forall i | 0 <= i < |log| && i < |frames| ::
      Proxied(log[i]) && Plain(h, log[i]) ==> ArrivesAs(h, log[i], frames[i])
  {
    hide RequestFast, Forwarded, Plain, Run, FrameBytes, Quiet, Framed, FrameOk, ArrivesAs;
    InOrder(h.requests, frames, tail, log, rest);
    forall i | 0 <= i < |log| && i < |frames| && Proxied(log[i]) && Plain(h, log[i])
      ensures ArrivesAs(h, log[i], frames[i])
    {
      assert frames[i] in frames && log[i] in log;
      FrameHead(h.requests, frames[i]);
      ForwardedArrives(h, log[i], frames[i]);
    }
  }

  // ---------------------------------------------------------------- the hypotheses can be met

  /** A general parser that leaves everything to the fast one. */
  const ALWAYS_WAITS: Oracle := (b: Bytes) => Incomplete

  /** Every bare request line of reasonable length is a well-framed request. */
  lemma BareFrame(m: Method, path: Bytes)
    requires Utf8(path) && ' ' !in path && '\r' !in path && '\n' !in path && |path| <= 16000
    ensures var head := H1Rewrite.Wire([H1Rewrite.RequestLineFor(MethodName(m), path)]) + "\r\n";
      var req := RequestOf(RequestLine(m, path, 1), [], |head|);
      FrameOk(ALWAYS_WAITS, Frame(req, head, "")) && SaneRequests(ALWAYS_WAITS)
  {
    hide Utf8, RequestFast, H1Rewrite.Wire, RequestLineOf, MethodName;
    hide HostField, ChunkedField, CloseField, UpgradeField;
    hide LengthField, ExpectField;
    var rl := H1Rewrite.RequestLineFor(MethodName(m), path);
    H1RewriteLaws.RequestLineBack(m, path);
    H1RewriteLaws.HeadOfWire(rl, [], []);
    FieldsNone(false);
    BareLength(m, path);
    assert [rl] + [] == [rl];
  }

  lemma BareLength(m: Method, path: Bytes)
    ensures |H1Rewrite.Wire([H1Rewrite.RequestLineFor(MethodName(m), path)])| <= |path| + 32
  {
    H1Rewrite.WireAppend([], H1Rewrite.RequestLineFor(MethodName(m), path));
    assert |MethodName(m)| <= 7;
  }
}
