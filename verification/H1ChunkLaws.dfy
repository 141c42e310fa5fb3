/** Chunked bodies as section 7.1 of RFC 9112 writes them, and what the relay makes of them. */
module H1ChunkLaws {
  import opened Text
  import opened Proto
  import opened H1Relay

  /** A chunk: its size in hexadecimal, an extension that is empty or starts with a semicolon,
      perhaps after white space, and its data; section 7.1.1. */
  datatype Chunk = Chunk(digits: Bytes, ext: Bytes, data: Bytes)

  /** A whole body: chunks, the zero chunk, and the trailer lines, each with
      its line end; section 7.1.2. */
  datatype Body = Body(chunks: seq<Chunk>, zeros: Bytes, ext: Bytes, trailers: Bytes)

  predicate ExtOk(ext: Bytes) {
    '\n' !in ext && (ext == "" || (LeftTrimmed(ext) != "" && LeftTrimmed(ext)[0] == ';'))
  }

  predicate HexOk(digits: Bytes) { digits != "" && IsDigits(digits, 16) }

  predicate ChunkOk(c: Chunk) {
    HexOk(c.digits) && Value(c.digits, 16) == |c.data| && c.data != "" && ExtOk(c.ext)
  }

  predicate BodyOk(b: Body) {
    && (forall c | c in b.chunks :: ChunkOk(c))
    && HexOk(b.zeros) && Value(b.zeros, 16) == 0 && ExtOk(b.ext)
  }

  function SizeLine(digits: Bytes, ext: Bytes): Bytes { digits + ext + "\r\n" }

  function ChunkBytes(c: Chunk): Bytes { SizeLine(c.digits, c.ext) + c.data + "\r\n" }

  function ChunksBytes(cs: seq<Chunk>): Bytes {
    if cs == [] then "" else ChunkBytes(cs[0]) + ChunksBytes(cs[1..])
  }

  function LastBytes(b: Body): Bytes { SizeLine(b.zeros, b.ext) + b.trailers + "\r\n" }

  function BodyBytes(b: Body): Bytes { ChunksBytes(b.chunks) + LastBytes(b) }

  /** No chunk is larger than the relay accepts. */
  predicate SizesFit(b: Body) { forall c | c in b.chunks :: |c.data| <= MAX_CHUNK }

  // ---------------------------------------------------------------- one size line

  lemma {:induction false} AsciiUtf8(s: Bytes)
    requires forall c | c in s :: c as int < 0x80
    ensures Utf8(s)
  {
    if s != "" {
      assert s[0] in s && forall c | c in s[1..] :: c in s;
      AsciiUtf8(s[1..]);
    }
  }

  lemma HexChars(digits: Bytes)
    requires HexOk(digits)
    ensures forall c | c in digits :: c as int < 0x80 && !Space(c) && c != '+' && c != ';' && c != '\n' && c != '\r'
  {
  }

  lemma HexIsTrimmed(digits: Bytes)
    requires HexOk(digits)
    ensures Trim(digits) == digits
  {
    HexChars(digits);
    assert digits[0] in digits && digits[|digits| - 1] in digits;
  }

  /** The white space in front of an extension. */
  function Gap(ext: Bytes): (r: Bytes)
    ensures |r| <= |ext| && forall c | c in r :: Blank(c)
  {
    ext[..|ext| - |LeftTrimmed(ext)|]
  }

  /** The part of a size line before the semicolon. */
  lemma BeforeExt(digits: Bytes, ext: Bytes)
    requires ';' !in digits && ExtOk(ext)
    ensures Split(digits + ext, ';')[0] == digits + Gap(ext)
  {
    hide Split, LeftTrimmed;
    var gap, rest := Gap(ext), LeftTrimmed(ext);
    assert ext == gap + rest;
    assert digits + ext == digits + gap + rest;
    assert ';' !in digits + gap;
    if ext == "" {
      SplitNone(digits + gap, ';');
    } else {
      assert rest == [';'] + rest[1..];
      SplitCons(digits + gap, ';', rest[1..]);
      assert digits + ext == digits + gap + [';'] + rest[1..];
    }
  }

  lemma {:induction false} GapIsTrimmed(digits: Bytes, gap: Bytes)
    requires HexOk(digits) && forall c | c in gap :: Blank(c)
    ensures Trim(digits + gap) == digits
    decreases |gap|
  {
    HexChars(digits);
    assert digits[0] in digits && (digits + gap)[0] == digits[0];
    if gap == "" {
      HexIsTrimmed(digits);
      assert digits + gap == digits;
    } else {
      var front := gap[..|gap| - 1];
      assert gap[|gap| - 1] in gap && forall c | c in front :: c in gap;
      assert (digits + gap)[..|digits + gap| - 1] == digits + front && (digits + front)[0] == digits[0];
      GapIsTrimmed(digits, front);
    }
  }

  /** A size line is read as the number it writes, unless that is too large. */
  lemma SizeLineRead(digits: Bytes, ext: Bytes, rest: Bytes)
    requires HexOk(digits) && ExtOk(ext)
    ensures ChunkSize(SizeLine(digits, ext) + rest)
      == if Value(digits, 16) > MAX_CHUNK then Invalid
         else Ok(ChunkHead(Value(digits, 16), |SizeLine(digits, ext)|))
  {
    hide Value, IsDigits, Utf8, IndexOf, Trim, Split;
    var s := SizeLine(digits, ext) + rest;
    var line := digits + ext + "\r";
    HexChars(digits);
    assert s == line + ['\n'] + rest;
    IndexOfAfter(line, '\n', rest);
    TrimOneCr(digits + ext);
    BeforeExt(digits, ext);
    AsciiUtf8(digits + Gap(ext));
    GapIsTrimmed(digits, Gap(ext));
    assert digits[0] in digits;
  }

  lemma TrimOneCr(line: Bytes)
    requires '\n' !in line
    ensures Trimmed(line + "\r") == line
  {
  }

  // ---------------------------------------------------------------- whole bodies

  /** Passing one chunk on and going on behind it. */
  lemma RelayChunk(c: Chunk, rest: Bytes, strict: bool)
    requires ChunkOk(c)
    ensures ChunkedRelay(ChunkBytes(c) + rest, strict)
      == if |c.data| > MAX_CHUNK then Relay(0, !strict)
         else Relay(|ChunkBytes(c)| + ChunkedRelay(rest, strict).sent, ChunkedRelay(rest, strict).ok)
  {
    hide HexOk, Value, ExtOk, ChunkSize, LeftTrimmed, SizeLine;
    var line := SizeLine(c.digits, c.ext);
    var tail := c.data + "\r\n" + rest;
    assert ChunkBytes(c) + rest == line + tail;
    SizeLineRead(c.digits, c.ext, tail);
    assert (line + tail)[|line|..] == tail;
    assert tail[|c.data| + 2..] == rest;
  }

  lemma RelayLast(b: Body, rest: Bytes, strict: bool)
    requires BodyOk(b)
    ensures ChunkedRelay(LastBytes(b) + rest, strict) == Relay(|SizeLine(b.zeros, b.ext)| + 2, true)
  {
    hide HexOk, Value, ExtOk, ChunkSize;
    var line := SizeLine(b.zeros, b.ext);
    var tail := b.trailers + "\r\n" + rest;
    assert LastBytes(b) + rest == line + tail;
    SizeLineRead(b.zeros, b.ext, tail);
    assert (line + tail)[|line|..] == tail;
  }

  lemma {:induction false} RelayChunks(cs: seq<Chunk>, rest: Bytes, strict: bool)
    requires forall c | c in cs :: ChunkOk(c)
    ensures (forall c | c in cs :: |c.data| <= MAX_CHUNK) ==>
      ChunkedRelay(ChunksBytes(cs) + rest, strict)
      == Relay(|ChunksBytes(cs)| + ChunkedRelay(rest, strict).sent, ChunkedRelay(rest, strict).ok)
    ensures (exists c | c in cs :: |c.data| > MAX_CHUNK) ==>
      ChunkedRelay(ChunksBytes(cs) + rest, strict).sent < |ChunksBytes(cs)|
  {
    hide ChunkedRelay, ChunkOk, ChunkBytes;
    if cs == [] {
      assert "" + rest == rest;
    } else {
      var c, tail := cs[0], cs[1..];
      assert c in cs && cs == [c] + tail;
      assert forall x | x in tail :: x in cs;
      RelayChunks(tail, rest, strict);
      RelayChunk(c, ChunksBytes(tail) + rest, strict);
      Assoc(ChunkBytes(c), ChunksBytes(tail), rest);
      ChunkNotEmpty(c);
    }
  }

  lemma ChunkNotEmpty(c: Chunk)
    ensures |ChunkBytes(c)| >= 4
  {
  }

  /** For every body written as the standard says and every bytes after it, the relay sends
      exactly the body, successfully, if and only if no chunk is larger than 128 MiB and there
      is no trailer.  Otherwise it stops inside the body. */
  lemma BodyRelayedIff(b: Body, rest: Bytes, strict: bool)
    requires BodyOk(b)
    ensures ChunkedRelay(BodyBytes(b) + rest, strict) == Relay(|BodyBytes(b)|, true)
      <==> SizesFit(b) && b.trailers == ""
    ensures ChunkedRelay(BodyBytes(b) + rest, strict).sent <= |BodyBytes(b)|
  {
    hide ChunkedRelay, ChunkOk;
    Assoc(ChunksBytes(b.chunks), LastBytes(b), rest);
    RelayChunks(b.chunks, LastBytes(b) + rest, strict);
    RelayLast(b, rest, strict);
  }

  /** With a trailer the next request starts inside the trailer: only two of its bytes are
      passed on. */
  lemma TrailerLeftBehind(b: Body, rest: Bytes)
    requires BodyOk(b) && SizesFit(b)
    ensures ChunkedRelay(BodyBytes(b) + rest, false) == Relay(|BodyBytes(b)| - |b.trailers|, true)
    ensures (BodyBytes(b) + rest)[|BodyBytes(b)| - |b.trailers|..] == (b.trailers + "\r\n")[2..] + rest
  {
    hide ChunkedRelay, ChunkOk, ChunksBytes, SizeLine;
    var line := SizeLine(b.zeros, b.ext);
    var front := ChunksBytes(b.chunks) + line;
    var tail := b.trailers + "\r\n" + rest;
    Assoc(ChunksBytes(b.chunks), LastBytes(b), rest);
    RelayChunks(b.chunks, LastBytes(b) + rest, false);
    RelayLast(b, rest, false);
    assert BodyBytes(b) + rest == front + tail;
    assert (front + tail)[|front| + 2..] == tail[2..];
    assert tail[2..] == (b.trailers + "\r\n")[2..] + rest;
  }

  /** In front of a chunk that is too large the relay stops: quietly for a request, with an error
      for a response. */
  lemma OversizedStops(cs: seq<Chunk>, c: Chunk, rest: Bytes, strict: bool)
    requires (forall x | x in cs :: ChunkOk(x) && |x.data| <= 134_217_728) && ChunkOk(c) && |c.data| > 134_217_728
    ensures ChunkedRelay(ChunksBytes(cs) + (ChunkBytes(c) + rest), strict) == Relay(|ChunksBytes(cs)|, !strict)
  {
    hide ChunkedRelay, ChunkOk, ChunkBytes;
    RelayChunks(cs, ChunkBytes(c) + rest, strict);
    RelayChunk(c, rest, strict);
  }

  /** A stream that ends inside a chunk fails the relay, which has passed the size line on. */
  lemma TruncatedFails(cs: seq<Chunk>, c: Chunk, part: Bytes, strict: bool)
    requires (forall x | x in cs :: ChunkOk(x) && |x.data| <= 134_217_728) && ChunkOk(c) && |c.data| <= 134_217_728
    requires |part| < |c.data| + 2
    ensures ChunkedRelay(ChunksBytes(cs) + (SizeLine(c.digits, c.ext) + part), strict)
      == Relay(|ChunksBytes(cs)| + |SizeLine(c.digits, c.ext)|, false)
  {
    hide ChunksBytes, ChunkOk, SizeLine, ChunkedRelay;
    RelayChunks(cs, SizeLine(c.digits, c.ext) + part, strict);
    CutChunk(c, part, strict);
  }

  lemma CutChunk(c: Chunk, part: Bytes, strict: bool)
    requires ChunkOk(c) && |c.data| <= 134_217_728 && |part| < |c.data| + 2
    ensures ChunkedRelay(SizeLine(c.digits, c.ext) + part, strict) == Relay(|SizeLine(c.digits, c.ext)|, false)
  {
    hide HexOk, Value, ExtOk, ChunkSize, LeftTrimmed, SizeLine;
    var line := SizeLine(c.digits, c.ext);
    SizeLineRead(c.digits, c.ext, part);
    assert (line + part)[|line|..] == part;
  }
}
