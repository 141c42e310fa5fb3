/** The body relays of halo/src/h1.rs.

    Each relay reads its stream in arbitrary pieces.  Its contract speaks only of the buffered
    bytes followed by the unread ones, so what it does cannot depend on how they were cut. */
module H1Relay {
  import opened Text
  import opened Proto
  import opened Buffers

  const READ_SIZE := 32768

  function Min(a: nat, b: nat): nat { if a < b then a else b }

  /** `sink` holds what it held plus some prefix of `bytes`. */
  ghost predicate Prefixed(before: Bytes, bytes: Bytes, after: Bytes) {
    before <= after <= before + bytes
  }

  // ---------------------------------------------------------------- fixed length

  /** Position `k` of the stream `s`: what came before has been written, what comes after is
      buffered or unread. */
  ghost predicate At(s: Bytes, k: nat, w: Bytes, written: Bytes, pending: Bytes) {
    k <= |s| && written == w + s[..k] && pending == s[k..]
  }

  lemma Forward(s: Bytes, k: nat, w: Bytes, written: Bytes, pending: Bytes, n: nat)
    requires At(s, k, w, written, pending) && n <= |pending|
    ensures At(s, k + n, w, written + pending[..n], pending[n..])
  {
    assert s[..k + n] == s[..k] + s[k..][..n];
  }

  /** A failed write leaves a prefix. */
  lemma Broken(s: Bytes, k: nat, w: Bytes, written: Bytes, pending: Bytes, slice: Bytes, n: nat, after: Bytes)
    requires At(s, k, w, written, pending) && slice <= pending && k + |slice| <= n <= |s|
    requires exists i :: 0 <= i <= |slice| && after == written + slice[..i]
    ensures Prefixed(w, s[..n], after)
  {
    var i :| 0 <= i <= |slice| && after == written + slice[..i];
    assert slice[..i] == pending[..i];
    Forward(s, k, w, written, pending, i);
    assert after == w + s[..n][..k + i];
  }

  lemma Stopped(s: Bytes, k: nat, w: Bytes, written: Bytes, pending: Bytes, n: nat)
    requires At(s, k, w, written, pending) && k <= n <= |s|
    ensures Prefixed(w, s[..n], written)
  {
    assert written == w + s[..n][..k];
  }

  /** Relays `length` bytes, or all there are: end of stream is not an error here. */
  method StreamFixedBody(client: Source, upstream: Sink, buf: BytesMut, start: nat, length: nat)
    returns (ok: bool)
    requires start <= |buf.data|
    modifies client, upstream, buf
    ensures var s := old(buf.data[start..] + client.unread);
      var n := Min(length, |s|);
      if ok then upstream.written == old(upstream.written) + s[..n] && buf.data + client.unread == s[n..]
      else Prefixed(old(upstream.written), s[..n], upstream.written)
    ensures client.reliable && upstream.reliable ==> ok
  {
    ghost var s, w := buf.data[start..] + client.unread, upstream.written;
    ghost var n := Min(length, |s|);
    var buffered := |buf.data| - start;
    var toSend := Min(buffered, length);
    assert At(s, 0, w, w, s);
    ghost var slice0 := buf.data[start..start + toSend];
    assert slice0 == s[..toSend];
    Forward(s, 0, w, w, s, toSend);
    if toSend > 0 {
      ok := upstream.WriteAll(buf.data[start..start + toSend]);
      if !ok {
        Broken(s, 0, w, w, s, slice0, n, upstream.written);
        return;
      }
    }
    buf.Advance(start + toSend);
    assert buf.data + client.unread == s[toSend..];

    var remaining := length - toSend;
    ghost var k: nat := toSend;
    while remaining > 0
      invariant remaining == length - k && k <= n
      invariant At(s, k, w, upstream.written, buf.data + client.unread)
      invariant remaining > 0 ==> buf.data == ""
      decreases |client.unread|
    {
      var slice;
      ghost var pending, written := buf.data + client.unread, upstream.written;
      ok, slice := client.Read(Min(remaining, READ_SIZE));
      assert pending == slice + client.unread;
      if !ok {
        Stopped(s, k, w, written, pending, n);
        return;
      }
      if slice == "" { break; }
      assert pending[..|slice|] == slice && pending[|slice|..] == client.unread;
      ok := upstream.WriteAll(slice);
      if !ok {
        Broken(s, k, w, written, pending, slice, n, upstream.written);
        return;
      }
      Forward(s, k, w, written, pending, |slice|);
      remaining := remaining - |slice|;
      k := k + |slice|;
    }
    ok := true;
    assert k == n;
  }

  // ---------------------------------------------------------------- chunked bodies

  /** How many bytes of a chunked body are passed on, and whether the relay reports success.
      A size line that cannot be read stops a request relay at the end of the stream and makes
      a response relay (`strict`) fail. */
  datatype Relay = Relay(sent: nat, ok: bool)

  function ChunkedRelay(s: Bytes, strict: bool): (r: Relay)
    ensures r.sent <= |s|
    decreases |s|
  {
    match ChunkSize(s)
    case Ok(head) =>
      var rest := s[head.length..];
      if head.size == 0 then Relay(head.length + (if |rest| >= 2 then 2 else 0), true)
      else if |rest| < head.size + 2 then Relay(head.length, false)
      else
        var tail := ChunkedRelay(rest[head.size + 2..], strict);
        Relay(head.length + head.size + 2 + tail.sent, tail.ok)
    case Incomplete => Relay(0, true)
    case _ => Relay(0, !strict)
  }

  /** Reads until the buffer holds `want` bytes or the stream ends. */
  method FillTo(client: Source, buf: BytesMut, want: nat) returns (ok: bool)
    modifies client, buf
    ensures buf.data + client.unread == old(buf.data + client.unread)
    ensures ok && |buf.data| < want ==> client.unread == ""
    ensures !ok ==> !client.reliable
  {
    ok := true;
    while |buf.data| < want
      invariant ok
      invariant buf.data + client.unread == old(buf.data + client.unread)
      decreases |client.unread|
    {
      var slice;
      ok, slice := client.Read(READ_SIZE);
      if !ok || slice == "" { return; }
      Assoc(buf.data, slice, client.unread);
      buf.Extend(slice);
    }
  }

  /** Reads until a size line can be read; for a response until one is there at all. */
  method AwaitChunkSize(client: Source, buf: BytesMut, strict: bool) returns (ok: bool, head: Parsed<ChunkHead>)
    modifies client, buf
    ensures buf.data + client.unread == old(buf.data + client.unread)
    ensures !ok ==> !client.reliable
    ensures ok ==> head == ChunkSize(buf.data + client.unread)
    ensures ok && head.Ok? ==> head.value.length <= |buf.data|
    ensures ok && !head.Ok? && !(strict && head == Invalid) ==> client.unread == ""
  {
    ok := true;
    while true
      invariant buf.data + client.unread == old(buf.data + client.unread)
      decreases |client.unread|
    {
      head := ChunkSize(buf.data);
      if head != Incomplete { ChunkSizeStable(buf.data, client.unread); }
      if head.Ok? || (strict && head == Invalid) { return; }
      var slice;
      ok, slice := client.Read(READ_SIZE);
      if !ok { return; }
      if slice == "" {
        assert buf.data + client.unread == buf.data;
        return;
      }
      Assoc(buf.data, slice, client.unread);
      buf.Extend(slice);
    }
  }

  /** One write of the first `n` buffered bytes, dropped from the buffer afterwards. */
  method Pass(upstream: Sink, buf: BytesMut, n: nat, ghost s: Bytes, ghost k: nat, ghost w: Bytes,
              ghost unread: Bytes, ghost end: nat)
    returns (ok: bool)
    requires n <= |buf.data| && At(s, k, w, upstream.written, buf.data + unread) && k + n <= end <= |s|
    modifies upstream, buf
    ensures ok ==> At(s, k + n, w, upstream.written, buf.data + unread)
    ensures ok ==> buf.data == old(buf.data[n..])
    ensures !ok ==> !upstream.reliable && Prefixed(w, s[..end], upstream.written)
  {
    ghost var pending, written := buf.data + unread, upstream.written;
    assert pending[..n] == buf.data[..n] && pending[n..] == buf.data[n..] + unread;
    ok := upstream.WriteAll(buf.data[..n]);
    if ok {
      Forward(s, k, w, written, pending, n);
      buf.Advance(n);
    } else {
      Broken(s, k, w, written, pending, buf.data[..n], end, upstream.written);
    }
  }

  /** Fills the buffer up to `n` bytes and passes them on if they have all arrived. */
  method PassWhole(client: Source, upstream: Sink, buf: BytesMut, n: nat, ghost s: Bytes, ghost k: nat,
                   ghost w: Bytes, ghost end: nat)
    returns (ok: bool, whole: bool)
    requires At(s, k, w, upstream.written, buf.data + client.unread) && k <= end <= |s|
    requires k + n <= |s| ==> k + n <= end
    modifies client, upstream, buf
    ensures whole ==> ok && k + n <= |s| && At(s, k + n, w, upstream.written, buf.data + client.unread)
    ensures ok && !whole ==> |s| < k + n && At(s, k, w, upstream.written, buf.data + client.unread)
    ensures !ok ==> !(client.reliable && upstream.reliable)
    ensures !whole ==> Prefixed(w, s[..end], upstream.written)
  {
    whole := false;
    Stopped(s, k, w, upstream.written, buf.data + client.unread, end);
    ok := FillTo(client, buf, n);
    if ok && |buf.data| >= n {
      ok := Pass(upstream, buf, n, s, k, w, client.unread, end);
      whole := ok;
    }
  }

  /** What is left to relay at position `k`. */
  ghost predicate Left(s: Bytes, k: nat, strict: bool) {
    && k <= |s|
    && ChunkedRelay(s, strict) == Relay(k + ChunkedRelay(s[k..], strict).sent, ChunkedRelay(s[k..], strict).ok)
  }

  lemma LeftNext(s: Bytes, k: nat, strict: bool)
    requires Left(s, k, strict) && ChunkSize(s[k..]).Ok?
    ensures var head := ChunkSize(s[k..]).value;
      && k + head.length <= ChunkedRelay(s, strict).sent
      && s[k..][head.length..] == s[k + head.length..]
      && var rest := |s| - k - head.length;
      if head.size == 0 then ChunkedRelay(s, strict) == Relay(k + head.length + (if rest >= 2 then 2 else 0), true)
      else if rest < head.size + 2 then ChunkedRelay(s, strict) == Relay(k + head.length, false)
      else
        && k + head.length + head.size + 2 <= ChunkedRelay(s, strict).sent
        && Left(s, k + head.length + head.size + 2, strict)
  {
    hide ChunkSize;
    var head := ChunkSize(s[k..]).value;
    assert s[k..][head.length..] == s[k + head.length..];
    if head.size > 0 && |s| - k - head.length >= head.size + 2 {
      assert s[k + head.length..][head.size + 2..] == s[k + head.length + head.size + 2..];
    }
  }

  lemma Pending(s: Bytes, k: nat, w: Bytes, written: Bytes, pending: Bytes, strict: bool)
    requires At(s, k, w, written, pending) && Left(s, k, strict)
    ensures k <= ChunkedRelay(s, strict).sent <= |s| && pending == s[k..]
  {
  }

  lemma LeftEnds(s: Bytes, k: nat, strict: bool)
    requires Left(s, k, strict) && !ChunkSize(s[k..]).Ok?
    ensures ChunkedRelay(s, strict) == Relay(k, !(strict && ChunkSize(s[k..]) == Invalid))
  {
    hide ChunkSize;
    ChunkSizeNoPanic(s[k..]);
  }

  lemma ChunkSizeNoPanic(s: Bytes)
    ensures ChunkSize(s) != Panicked
  {
  }

  /** One turn of the relay loop: either it is over, or one whole chunk has been passed on. */
  method OneChunk(client: Source, upstream: Sink, buf: BytesMut, strict: bool,
                  ghost s: Bytes, ghost k: nat, ghost w: Bytes)
    returns (over: bool, ok: bool, ghost next: nat)
    requires At(s, k, w, upstream.written, buf.data + client.unread) && Left(s, k, strict)
    modifies client, upstream, buf
    ensures !over ==> k < next && At(s, next, w, upstream.written, buf.data + client.unread) && Left(s, next, strict)
    ensures var r := ChunkedRelay(s, strict);
      && (over ==> Prefixed(w, s[..r.sent], upstream.written))
      && (over && (ok || (client.reliable && upstream.reliable)) ==>
            ok == r.ok && At(s, r.sent, w, upstream.written, buf.data + client.unread))
  {
    hide ChunkSize, ChunkedRelay, Prefixed, At, Left;
    ghost var end := ChunkedRelay(s, strict).sent;
    over, next := true, k;
    Pending(s, k, w, upstream.written, buf.data + client.unread, strict);
    Stopped(s, k, w, upstream.written, buf.data + client.unread, end);
    var head;
    ok, head := AwaitChunkSize(client, buf, strict);
    if !ok { return; }
    if !head.Ok? {
      LeftEnds(s, k, strict);
      ok := !(strict && head == Invalid);
      return;
    }
    LeftNext(s, k, strict);
    var size, length := head.value.size, head.value.length;
    ok := Pass(upstream, buf, length, s, k, w, client.unread, end);
    if !ok { return; }
    ghost var k1 := k + length;
    var whole;
    if size == 0 {
      ok, whole := PassWhole(client, upstream, buf, 2, s, k1, w, end);
      if whole { Stopped(s, k1 + 2, w, upstream.written, buf.data + client.unread, end); }
      return;
    }
    ok, whole := PassWhole(client, upstream, buf, size + 2, s, k1, w, end);
    if whole {
      over, next := false, k1 + size + 2;
    } else {
      ok := false;
    }
  }

  /** The relay loop.  Whatever the bytes and however they arrive, the sink receives exactly
      the first `sent` of them and the rest stays buffered or unread. */
  method StreamChunked(client: Source, upstream: Sink, buf: BytesMut, strict: bool) returns (ok: bool)
    modifies client, upstream, buf
    ensures var s := old(buf.data + client.unread);
      var r := ChunkedRelay(s, strict);
      && (ok || (client.reliable && upstream.reliable) ==>
            && ok == r.ok
            && upstream.written == old(upstream.written) + s[..r.sent]
            && buf.data + client.unread == s[r.sent..])
      && Prefixed(old(upstream.written), s[..r.sent], upstream.written)
  {
    hide ChunkedRelay, Prefixed;
    ghost var s, w := buf.data + client.unread, upstream.written;
    ghost var k: nat := 0;
    assert s[0..] == s && w + s[..0] == w;
    while true
      invariant At(s, k, w, upstream.written, buf.data + client.unread)
      invariant Left(s, k, strict)
      decreases |s| - k
    {
      var over;
      ghost var next;
      over, ok, next := OneChunk(client, upstream, buf, strict, s, k, w);
      if over { return; }
      k := next;
    }
  }

  method StreamChunkedBody(client: Source, upstream: Sink, buf: BytesMut, start: nat) returns (ok: bool)
    requires start <= |buf.data|
    modifies client, upstream, buf
    ensures var s := old(buf.data[start..] + client.unread);
      var r := ChunkedRelay(s, false);
      && (ok || (client.reliable && upstream.reliable) ==>
            && ok == r.ok
            && upstream.written == old(upstream.written) + s[..r.sent]
            && buf.data + client.unread == s[r.sent..])
      && Prefixed(old(upstream.written), s[..r.sent], upstream.written)
  {
    buf.Advance(start);
    ok := StreamChunked(client, upstream, buf, false);
  }

  /** The response relay owns its buffer and forgets it. */
  method StreamChunkedResponse(client: Sink, upstream: Source, buffered: Bytes) returns (ok: bool)
    modifies client, upstream
    ensures var s := old(buffered + upstream.unread);
      var r := ChunkedRelay(s, true);
      && (client.reliable && upstream.reliable ==> ok == r.ok && client.written == old(client.written) + s[..r.sent])
      && Prefixed(old(client.written), s[..r.sent], client.written)
  {
    var buf := new BytesMut();
    buf.Extend(buffered);
    assert "" + buffered == buffered;
    ok := StreamChunked(upstream, client, buf, true);
  }
}
