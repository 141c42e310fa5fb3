/** stream_response of halo/src/h1.rs without configured text filters: one response relayed
    from the upstream to the client.

    What the client receives depends on how many body bytes happened to be buffered when the
    head was complete, so the contract names that number. */
module H1Response {
  import opened Text
  import opened Proto
  import opened Buffers
  import opened H1Relay

  const MAX_RESPONSE_HEAD := 256 * 1024

  type Oracle<T> = Bytes -> Parsed<T>

  /** Why no whole response was relayed: no head that can be read, too much before its end, the
      end of the stream before it, a chunked body that breaks off or cannot be read, or a peer
      that failed. */
  datatype Failure = BadHead | HeadTooLarge | NoHead | BadBody | Cut

  datatype ResponseEnd = Relayed(keepAlive: bool) | Failed(why: Failure) | Crashed

  /** What the general parser may answer: never a panic, and heads inside the buffer. */
  ghost predicate SaneResponses(oracle: Oracle<Response>) {
    forall b: Bytes {:trigger oracle(b)} ::
      oracle(b) != Panicked && (oracle(b).Ok? ==> oracle(b).value.headersEnd <= |b|)
  }

  /** parse_response: the general parser is asked when the fast one does not accept. */
  function ParseResponse(buf: Bytes, oracle: Oracle<Response>): Parsed<Response> {
    var fast := ResponseFast(buf);
    if fast.Ok? || fast == Panicked then fast else oracle(buf)
  }

  lemma HeadInside(buf: Bytes, oracle: Oracle<Response>)
    requires SaneResponses(oracle) && ParseResponse(buf, oracle).Ok?
    ensures ParseResponse(buf, oracle).value.headersEnd <= |buf|
  {
    if ResponseFast(buf).Ok? { ResponseFastStable(buf, ""); }
  }

  /** What is sent after the buffer: for a chunked body the relay starts again at the first body
      byte, for a body of known length it goes on where the buffer ended. */
  function Continuation(buffered: Bytes, unread: Bytes, resp: Response): Bytes {
    if resp.chunked then (buffered + unread)[..ChunkedRelay(buffered + unread, true).sent]
    else if resp.contentLength.Some? then
      var left := if resp.contentLength.value < |buffered| then 0 else resp.contentLength.value - |buffered|;
      unread[..Min(left, |unread|)]
    else unread
  }

  /** What the client gets of the stream `t` when `seen` bytes of it were buffered on arrival
      of the head. */
  function Delivered(t: Bytes, resp: Response, seen: nat): Bytes
    requires resp.headersEnd <= seen <= |t|
  {
    t[..seen] + Continuation(t[resp.headersEnd..seen], t[seen..], resp)
  }

  /** Copies up to `limit` bytes, or everything if there is no limit. */
  method CopyBody(client: Sink, upstream: Source, limit: Option<nat>) returns (ok: bool, remaining: nat)
    modifies client, upstream
    ensures var u := old(upstream.unread);
      ok ==>
        && (limit.Some? ==> client.written == old(client.written) + u[..Min(limit.value, |u|)])
        && (limit.None? ==> client.written == old(client.written) + u)
    ensures client.reliable && upstream.reliable ==> ok
  {
    ghost var u, w := upstream.unread, client.written;
    ghost var k: nat := 0;
    remaining := if limit.Some? then limit.value else 0;
    while limit.None? || remaining > 0
      invariant At(u, k, w, client.written, upstream.unread)
      invariant limit.Some? ==> k + remaining == limit.value
      decreases |upstream.unread|
    {
      ghost var pending, written := upstream.unread, client.written;
      var slice;
      ok, slice := upstream.Read(if limit.Some? then Min(remaining, READ_SIZE) else READ_SIZE);
      if !ok { return; }
      if slice == "" { break; }
      assert pending[..|slice|] == slice && pending[|slice|..] == upstream.unread;
      ok := client.WriteAll(slice);
      if !ok { return; }
      Forward(u, k, w, written, pending, |slice|);
      k := k + |slice|;
      if limit.Some? { remaining := remaining - |slice|; }
    }
    ok := true;
    assert u[..|u|] == u;
  }

  /** Discards what has already arrived, until a read would block. */
  method DrainLeftover(upstream: Source)
    modifies upstream
    ensures exists n :: 0 <= n <= |old(upstream.unread)| && upstream.unread == old(upstream.unread)[n..]
  {
    ghost var u := upstream.unread;
    ghost var n := 0;
    var blocks: bool := *;
    while !blocks
      invariant 0 <= n <= |u| && upstream.unread == u[n..]
      decreases |upstream.unread|
    {
      var ok, slice := upstream.Read(512);
      if !ok || slice == "" { break; }
      assert u[n..][|slice|..] == u[n + |slice|..];
      n := n + |slice|;
      blocks := *;
    }
  }

  // ---------------------------------------------------------------- how it may end

  /** Reading goes on while the head is incomplete, at most `room` bytes at a time: `seen` bytes
      are in the buffer when it stops. */
  ghost predicate Waited(t: Bytes, oracle: Oracle<Response>, room: nat, seen: nat) {
    && seen <= |t|
    && (seen > 0 ==> exists p {:trigger t[..p]} ::
          0 <= p < seen <= p + room && p <= MAX_RESPONSE_HEAD && ParseResponse(t[..p], oracle) == Incomplete)
  }

  /** Of an upstream that sends `t`: how waiting for the head may end.  `sure` says that it does
      not fail. */
  ghost predicate HeadFits(t: Bytes, oracle: Oracle<Response>, room: nat, sure: bool, head: Awaited, seen: nat) {
    && Waited(t, oracle, room, seen)
    && match head
       case Got(resp) => seen <= MAX_RESPONSE_HEAD && ParseResponse(t[..seen], oracle) == Ok(resp)
       case Over(Crashed) => seen <= MAX_RESPONSE_HEAD && ResponseFast(t[..seen]) == Panicked
       case Over(Failed(BadHead)) => seen <= MAX_RESPONSE_HEAD && ParseResponse(t[..seen], oracle) == Invalid
       case Over(Failed(HeadTooLarge)) => seen > MAX_RESPONSE_HEAD
       case Over(Failed(NoHead)) => seen == |t| <= MAX_RESPONSE_HEAD && ParseResponse(t, oracle) == Incomplete
       case Over(Failed(Cut)) => !sure
       case _ => false
  }

  datatype Awaited = Got(resp: Response) | Over(end: ResponseEnd)

  predicate Reusable(resp: Response, requestKeepAlive: bool) {
    requestKeepAlive && !resp.close && (resp.chunked || resp.contentLength.Some?)
  }

  predicate BodyRelays(t: Bytes, resp: Response) {
    resp.headersEnd <= |t| && (resp.chunked ==> ChunkedRelay(t[resp.headersEnd..], true).ok)
  }

  /** How a whole response may end; `sure` says that neither peer fails. */
  ghost predicate EndFits(t: Bytes, oracle: Oracle<Response>, room: nat, sure: bool, requestKeepAlive: bool,
                          end: ResponseEnd, resp: Response, seen: nat)
  {
    match end
    case Relayed(keepAlive) =>
      && HeadFits(t, oracle, room, sure, Got(resp), seen) && keepAlive == Reusable(resp, requestKeepAlive)
      && (sure ==> BodyRelays(t, resp))
    case Failed(BadBody) => HeadFits(t, oracle, room, sure, Got(resp), seen) && !BodyRelays(t, resp)
    case Failed(Cut) => !sure
    case _ => HeadFits(t, oracle, room, sure, Over(end), seen)
  }

  /** One more read. */
  lemma WaitedMore(t: Bytes, oracle: Oracle<Response>, room: nat, p: nat, n: nat)
    requires 0 < n <= room && p + n <= |t| && p <= MAX_RESPONSE_HEAD
    requires ParseResponse(t[..p], oracle) == Incomplete
    ensures Waited(t, oracle, room, p + n)
  {
    hide ParseResponse;
    assert t[..p] == t[..p];
  }

  /** Reads until a head is there, or there is a reason not to; `room` is the space in the
      buffer. */
  method AwaitHead(upstream: Source, buf: BytesMut, oracle: Oracle<Response>, room: nat) returns (head: Awaited)
    requires SaneResponses(oracle) && room > 0 && buf.data == ""
    modifies upstream, buf
    ensures buf.data + upstream.unread == old(upstream.unread)
    ensures HeadFits(old(upstream.unread), oracle, room, upstream.reliable, head, |buf.data|)
  {
    hide ResponseFast, Waited, ParseResponse;
    ghost var t := upstream.unread;
    WaitedNone(t, oracle, room);
    while true
      invariant buf.data + upstream.unread == t
      invariant Waited(t, oracle, room, |buf.data|) && |buf.data| <= MAX_RESPONSE_HEAD
      decreases |upstream.unread|
    {
      ghost var p := |buf.data|;
      assert t[..p] == buf.data;
      var parsed := ParseResponseFast(buf.data);
      if !parsed.Ok? && parsed != Panicked { parsed := oracle(buf.data); }
      Parsed(buf.data, oracle);
      match parsed {
        case Ok(resp) => return Got(resp);
        case Panicked => return Over(Crashed);
        case Invalid => return Over(Failed(BadHead));
        case Incomplete =>
      }
      var ok, slice := upstream.Read(room);
      if !ok { return Over(Failed(Cut)); }
      if slice == "" {
        assert t == buf.data;
        return Over(Failed(NoHead));
      }
      Assoc(buf.data, slice, upstream.unread);
      WaitedMore(t, oracle, room, p, |slice|);
      buf.Extend(slice);
      if |buf.data| > MAX_RESPONSE_HEAD { return Over(Failed(HeadTooLarge)); }
    }
  }

  lemma WaitedNone(t: Bytes, oracle: Oracle<Response>, room: nat)
    ensures Waited(t, oracle, room, 0)
  {
  }

  /** parse_response, spelled out. */
  lemma Parsed(buf: Bytes, oracle: Oracle<Response>)
    requires SaneResponses(oracle)
    ensures ParseResponse(buf, oracle)
      == if !ResponseFast(buf).Ok? && ResponseFast(buf) != Panicked then oracle(buf) else ResponseFast(buf)
    ensures oracle(buf) != Panicked
  {
    hide ResponseFast;
  }

  method RelayBody(client: Sink, upstream: Source, r: Response, buffered: Bytes, keepAlive: bool)
    returns (ok: bool)
    modifies client, upstream
    ensures ok && client.reliable && upstream.reliable ==>
      client.written == old(client.written) + Continuation(buffered, old(upstream.unread), r)
    ensures client.reliable && upstream.reliable ==>
      ok == (r.chunked ==> ChunkedRelay(buffered + old(upstream.unread), true).ok)
  {
    hide ChunkedRelay, Prefixed;
    if r.chunked {
      ok := StreamChunkedResponse(client, upstream, buffered);
      if ok && keepAlive { DrainLeftover(upstream); }
    } else if r.contentLength.Some? {
      var remaining := if r.contentLength.value < |buffered| then 0 else r.contentLength.value - |buffered|;
      ok, remaining := CopyBody(client, upstream, Some(remaining));
      if ok && keepAlive && remaining > 0 { DrainLeftover(upstream); }
    } else {
      var remaining;
      ok, remaining := CopyBody(client, upstream, None);
    }
  }

  method StreamResponse(client: Sink, upstream: Source, requestKeepAlive: bool, buf: BytesMut,
                        oracle: Oracle<Response>, room: nat)
    returns (end: ResponseEnd, ghost resp: Response, ghost seen: nat)
    requires SaneResponses(oracle) && room > 0 && buf.data == ""
    modifies client, upstream, buf
    ensures EndFits(old(upstream.unread), oracle, room, client.reliable && upstream.reliable, requestKeepAlive,
                    end, resp, seen)
    ensures var t := old(upstream.unread);
      end.Relayed? && client.reliable && upstream.reliable ==>
        resp.headersEnd <= seen <= |t| && client.written == old(client.written) + Delivered(t, resp, seen)
  {
    hide ParseResponse, ResponseFast, Continuation, ChunkedRelay, Waited;
    ghost var t, w := upstream.unread, client.written;
    resp := Response(0, None, false, false, 0);
    var head := AwaitHead(upstream, buf, oracle, room);
    seen := |buf.data|;
    assert t[..seen] == buf.data && t[seen..] == upstream.unread;
    if head.Over? { return head.end, resp, seen; }
    HeadInside(buf.data, oracle);
    var r := head.resp;
    resp := r;
    var sure := client.reliable && upstream.reliable;
    var ok := client.WriteAll(buf.data);
    if !ok { return Failed(Cut), resp, seen; }
    var keepAlive := !r.close && requestKeepAlive;
    var rest := buf.data[r.headersEnd..];
    assert t[r.headersEnd..seen] == rest && rest + upstream.unread == t[r.headersEnd..];
    ghost var u := upstream.unread;
    ok := RelayBody(client, upstream, r, rest, keepAlive);
    if !ok { return Failed(if sure then BadBody else Cut), resp, seen; }
    Assoc(w, buf.data, Continuation(rest, u, r));
    end := Relayed(keepAlive && (r.chunked || r.contentLength.Some?));
  }

  // ---------------------------------------------------------------- when the parser panics

  /** The panic is a property of what the upstream sends: a run that crashes was sent a status
      line without header line. */
  lemma CrashIsSent(t: Bytes, oracle: Oracle<Response>, room: nat, sure: bool, ka: bool, resp: Response, seen: nat)
    requires EndFits(t, oracle, room, sure, ka, Crashed, resp, seen)
    ensures ResponseFast(t) == Panicked
  {
    hide ResponseFast;
    assert t == t[..seen] + t[seen..];
    ResponseFastStable(t[..seen], t[seen..]);
  }

  /** The general parser waits on every part of a head, as the fast one does. */
  ghost predicate Quiet(oracle: Oracle<Response>, t: Bytes, end: nat) {
    forall p {:trigger t[..p]} :: 0 <= p < end <= |t| ==> oracle(t[..p]) == Incomplete
  }

  /** What `EndFits` leaves open about `t` is settled when the fast parser does not refuse it, the
      general parser is quiet on its head, and the head fits with room to spare. */
  ghost predicate Settled(t: Bytes, oracle: Oracle<Response>, room: nat) {
    match FindHeadersEnd(t)
    case None => false
    case Some(end) =>
      ResponseFast(t) != Invalid && Quiet(oracle, t, end) && end - 1 + room <= MAX_RESPONSE_HEAD
  }

  /** Before the end of the head the parsers wait; from there on they say what they say of the
      whole. */
  lemma ParseAtHead(t: Bytes, oracle: Oracle<Response>, p: nat)
    requires FindHeadersEnd(t).Some? && p <= |t| && Quiet(oracle, t, FindHeadersEnd(t).value)
    ensures p < FindHeadersEnd(t).value ==> ParseResponse(t[..p], oracle) == Incomplete
    ensures p >= FindHeadersEnd(t).value ==> ResponseFast(t[..p]) == ResponseFast(t)
  {
    var end := FindHeadersEnd(t).value;
    if p < end {
      HeadersEndOfPrefix(t, p);
    } else {
      HeadKept(t, p);
      assert t == t[..p] + t[p..];
      DecidedAtHead(t[..p]);
      hide ResponseFast;
      ResponseFastStable(t[..p], t[p..]);
    }
  }

  lemma HeadKept(t: Bytes, p: nat)
    requires FindHeadersEnd(t).Some? && FindHeadersEnd(t).value <= p <= |t|
    ensures FindHeadersEnd(t[..p]).Some?
  {
    assert t == t[..p] + t[p..];
    BlankLinePrefix(t[..p], t[p..], FindHeadersEnd(t).value);
  }

  lemma DecidedAtHead(b: Bytes)
    requires FindHeadersEnd(b).Some?
    ensures ResponseFast(b) != Incomplete
  {
    FirstLfBounds(b);
    hide FindHeadersEnd, IndexOf, StatusOf, ResponseWith;
  }

  /** Then the end of a reliable exchange is determined: it crashes if and only if the upstream
      sends a status line without header line, and a response the fast parser accepts is relayed,
      with the connection reusable as its head says, if and only if its body can be. */
  lemma SettledEnd(t: Bytes, oracle: Oracle<Response>, room: nat, ka: bool, end: ResponseEnd, resp: Response, seen: nat)
    requires Settled(t, oracle, room) && EndFits(t, oracle, room, true, ka, end, resp, seen)
    ensures end == Crashed <==> ResponseFast(t) == Panicked
    ensures ResponseFast(t).Ok? ==>
      && (end.Relayed? <==> BodyRelays(t, ResponseFast(t).value))
      && (end.Relayed? ==> resp == ResponseFast(t).value && end.keepAlive == Reusable(resp, ka))
  {
    hide ResponseFast, BodyRelays, FindHeadersEnd, Quiet;
    ParseAtHead(t, oracle, seen);
    ParseAtHead(t, oracle, |t|);
    assert t[..|t|] == t;
    SettledSeen(t, oracle, room, seen);
  }

  /** The buffer never grows too large. */
  lemma SettledSeen(t: Bytes, oracle: Oracle<Response>, room: nat, seen: nat)
    requires Settled(t, oracle, room) && Waited(t, oracle, room, seen)
    ensures seen <= MAX_RESPONSE_HEAD
  {
    hide ResponseFast, FindHeadersEnd, Quiet;
    if seen > 0 {
      var p :| 0 <= p < seen <= p + room && p <= MAX_RESPONSE_HEAD && ParseResponse(t[..p], oracle) == Incomplete;
      ParseAtHead(t, oracle, p);
      DecidedAtHead(t);
    }
  }

  /** A response of known length reaches the client exactly, unless the upstream had already
      sent more than that: then the surplus is delivered too. */
  lemma FixedDelivered(t: Bytes, resp: Response, seen: nat)
    requires resp.headersEnd <= seen <= |t| && !resp.chunked && resp.contentLength.Some?
    ensures var end := Min(resp.headersEnd + resp.contentLength.value, |t|);
      Delivered(t, resp, seen) == if end < seen then t[..seen] else t[..end]
  {
    var end := Min(resp.headersEnd + resp.contentLength.value, |t|);
    if seen <= end {
      assert t[..seen] + t[seen..][..end - seen] == t[..end];
    } else {
      assert t[..seen] + [] == t[..seen];
    }
  }

  /** The client gets a chunked response as sent, head and relayed body, if and only if nothing
      of the body was buffered with the head: every buffered body byte is delivered twice. */
  lemma ChunkedDeliveredIff(t: Bytes, resp: Response, seen: nat)
    requires resp.headersEnd <= seen <= |t| && resp.chunked
    ensures var body := t[resp.headersEnd..];
      var exact := t[..resp.headersEnd] + body[..ChunkedRelay(body, true).sent];
      && (Delivered(t, resp, seen) == exact <==> seen == resp.headersEnd)
      && Delivered(t, resp, seen)
           == t[..resp.headersEnd] + t[resp.headersEnd..seen] + body[..ChunkedRelay(body, true).sent]
  {
    hide ChunkedRelay;
    var e := resp.headersEnd;
    assert t[e..seen] + t[seen..] == t[e..];
    assert t[..e] + t[e..seen] == t[..seen];
  }

  /** A response without length is everything up to the end of the stream. */
  lemma UnframedDelivered(t: Bytes, resp: Response, seen: nat)
    requires resp.headersEnd <= seen <= |t| && !resp.chunked && resp.contentLength.None?
    ensures Delivered(t, resp, seen) == t
  {
    assert t[..seen] + t[seen..] == t;
  }
}
