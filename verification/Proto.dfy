/** The hand-written HTTP/1 parsers of halo/src/proto.rs.

    Each parser that loops in the source is a method with the same loop, proved equal to a
    function that says what the accepted head means: the value of a header is the value of
    the LAST header line with that name.  Lemmas about those functions follow the parsers. */
module Proto {
  import opened Text

  const MAX_U64: nat := 0xFFFF_FFFF_FFFF_FFFF
  const MAX_U16: nat := 0xFFFF
  const MAX_CHUNK: nat := 128 * 1024 * 1024

  /** What a parser answers.  `Panicked` stands for a slice index out of range. */
  datatype Parsed<+T> = Ok(value: T) | Incomplete | Invalid | Panicked

  datatype Method = Get | Head | Post | Put | Delete | Options | Patch | Connect | Trace

  datatype Request = Request(
    method_: Method, path: Bytes, version: nat, host: Bytes, contentLength: Option<nat>,
    chunked: bool, close: bool, upgrade: Option<Bytes>, expectContinue: bool, headersEnd: nat)

  datatype Response = Response(
    status: nat, contentLength: Option<nat>, chunked: bool, close: bool, headersEnd: nat)

  datatype Field = Field(name: Bytes, value: Bytes)

  function MethodOf(b: Bytes): (r: Option<Method>)
    ensures r.Some? ==> MethodName(r.value) == b
    ensures r.None? ==> forall m :: MethodName(m) != b
  {
    if b == "GET" then Some(Get)
    else if b == "HEAD" then Some(Head)
    else if b == "POST" then Some(Post)
    else if b == "PUT" then Some(Put)
    else if b == "DELETE" then Some(Delete)
    else if b == "OPTIONS" then Some(Options)
    else if b == "PATCH" then Some(Patch)
    else if b == "CONNECT" then Some(Connect)
    else if b == "TRACE" then Some(Trace)
    else None
  }

  function MethodName(m: Method): (b: Bytes)
    ensures b != "" && forall c | c in b :: 'A' <= c <= 'Z'
  {
    match m
    case Get => "GET"
    case Head => "HEAD"
    case Post => "POST"
    case Put => "PUT"
    case Delete => "DELETE"
    case Options => "OPTIONS"
    case Patch => "PATCH"
    case Connect => "CONNECT"
    case Trace => "TRACE"
  }

  // ---------------------------------------------------------------- small helpers

  /** Does the blank line end at `e`? */
  predicate BlankLineEndsAt(buf: Bytes, e: nat) {
    && 4 <= e <= |buf|
    && buf[e - 4] == '\r' && buf[e - 3] == '\n' && buf[e - 2] == '\r' && buf[e - 1] == '\n'
  }

  function FindFrom(buf: Bytes, e: nat): (r: Option<nat>)
    requires e <= |buf|
    ensures r.Some? ==> e <= r.value && BlankLineEndsAt(buf, r.value)
    ensures r.Some? ==> forall k | e <= k < r.value :: !BlankLineEndsAt(buf, k)
    ensures r.None? ==> forall k | e <= k :: !BlankLineEndsAt(buf, k)
    decreases |buf| - e
  {
    if BlankLineEndsAt(buf, e) then Some(e)
    else if e == |buf| then None
    else FindFrom(buf, e + 1)
  }

  /** The index just after the first blank line. */
  function FindHeadersEnd(buf: Bytes): (r: Option<nat>)
    ensures r.Some? ==> 4 <= r.value <= |buf|
    ensures r.Some? ==> BlankLineEndsAt(buf, r.value) && forall k | 0 <= k < r.value :: !BlankLineEndsAt(buf, k)
    ensures r.None? ==> forall k :: !BlankLineEndsAt(buf, k)
  {
    FindFrom(buf, 0)
  }

  lemma FindHeadersEndUnique(buf: Bytes, e: nat)
    requires BlankLineEndsAt(buf, e) && forall k | 0 <= k < e :: !BlankLineEndsAt(buf, k)
    ensures FindHeadersEnd(buf) == Some(e)
  {
    var r := FindHeadersEnd(buf);
    assert r.Some?;
    assert r.value >= e;
  }

  lemma BlankLinePrefix(buf: Bytes, ext: Bytes, e: nat)
    requires e <= |buf|
    ensures BlankLineEndsAt(buf + ext, e) <==> BlankLineEndsAt(buf, e)
  {
  }

  /** More bytes after the head do not move its end. */
  lemma HeadersEndStable(buf: Bytes, ext: Bytes)
    requires FindHeadersEnd(buf).Some?
    ensures FindHeadersEnd(buf + ext) == FindHeadersEnd(buf)
  {
    var e := FindHeadersEnd(buf).value;
    BlankLinePrefix(buf, ext, e);
    forall k | 0 <= k < e ensures !BlankLineEndsAt(buf + ext, k) { BlankLinePrefix(buf, ext, k); }
    FindHeadersEndUnique(buf + ext, e);
  }

  /** No strict prefix of a head has a blank line. */
  lemma HeadersEndOfPrefix(buf: Bytes, n: nat)
    requires FindHeadersEnd(buf).Some? && n < FindHeadersEnd(buf).value
    ensures FindHeadersEnd(buf[..n]).None?
  {
    var r := FindHeadersEnd(buf[..n]);
    if r.Some? {
      assert buf == buf[..n] + buf[n..];
      BlankLinePrefix(buf[..n], buf[n..], r.value);
    }
  }

  /** Without one final LF and then without one final CR. */
  function Trimmed(b: Bytes): (r: Bytes)
    ensures b == r || b == r + "\n" || b == r + "\r" || b == r + "\r\n"
    ensures r <= b
  {
    var b1 := if b != "" && b[|b| - 1] == '\n' then b[..|b| - 1] else b;
    if b1 != "" && b1[|b1| - 1] == '\r' then b1[..|b1| - 1] else b1
  }

  method TrimCrlf(b: Bytes) returns (r: Bytes)
    ensures r == Trimmed(b)
  {
    var e := |b|;
    if e > 0 && b[e - 1] == '\n' { e := e - 1; }
    if e > 0 && b[e - 1] == '\r' { e := e - 1; }
    r := b[..e];
  }

  predicate Blank(c: char) { c == ' ' || c == '\t' }

  /** Without leading spaces and tabs. */
  function LeftTrimmed(b: Bytes): (r: Bytes)
    ensures |r| <= |b| && r == b[|b| - |r|..]
    ensures forall i | 0 <= i < |b| - |r| :: Blank(b[i])
    ensures r != "" ==> !Blank(r[0])
  {
    if b != "" && Blank(b[0]) then
      var r := LeftTrimmed(b[1..]);
      assert b[1..][|b| - 1 - |r|..] == b[|b| - |r|..];
      assert forall i | 1 <= i < |b| - |r| :: b[i] == b[1..][i - 1];
      r
    else b
  }

  method LTrim(b: Bytes) returns (r: Bytes)
    ensures r == LeftTrimmed(b)
  {
    var i := 0;
    while i < |b| && Blank(b[i])
      invariant 0 <= i <= |b|
      invariant LeftTrimmed(b[i..]) == LeftTrimmed(b)
    {
      assert b[i..][1..] == b[i + 1..];
      i := i + 1;
    }
    r := b[i..];
  }

  predicate Space(c: char) { c == ' ' || '\t' <= c <= '\r' }

  function TrimStart(s: Bytes): (r: Bytes)
    ensures |r| <= |s|
  {
    if s != "" && Space(s[0]) then TrimStart(s[1..]) else s
  }

  function TrimEnd(s: Bytes): (r: Bytes)
    ensures |r| <= |s|
  {
    if s != "" && Space(s[|s| - 1]) then TrimEnd(s[..|s| - 1]) else s
  }

  /** str::trim on ASCII white space. */
  function Trim(s: Bytes): Bytes { TrimEnd(TrimStart(s)) }

  /** from_str_radix of an unsigned type with largest value `max`: an optional plus sign,
      then at least one digit; no value above `max`. */
  function ParseUnsigned(s: Bytes, radix: nat, max: nat): (r: Option<nat>)
    ensures r.Some? ==> r.value <= max
  {
    var digits := if s != "" && s[0] == '+' then s[1..] else s;
    if digits == "" || !IsDigits(digits, radix) || Value(digits, radix) > max then None
    else Some(Value(digits, radix))
  }

  predicate Continuation(c: char) { 0x80 <= c as int <= 0xBF }

  /** str::from_utf8 succeeds: section 4 of RFC 3629. */
  predicate Utf8(s: Bytes) {
    if s == "" then true
    else
      var a := s[0] as int;
      if a < 0x80 then Utf8(s[1..])
      else if 0xC2 <= a <= 0xDF then |s| >= 2 && Continuation(s[1]) && Utf8(s[2..])
      else if 0xE0 <= a <= 0xEF then
        && |s| >= 3 && Continuation(s[1]) && Continuation(s[2])
        && (a == 0xE0 ==> s[1] as int >= 0xA0) && (a == 0xED ==> s[1] as int <= 0x9F)
        && Utf8(s[3..])
      else if 0xF0 <= a <= 0xF4 then
        && |s| >= 4 && Continuation(s[1]) && Continuation(s[2]) && Continuation(s[3])
        && (a == 0xF0 ==> s[1] as int >= 0x90) && (a == 0xF4 ==> s[1] as int <= 0x8F)
        && Utf8(s[4..])
      else false
  }

  // ---------------------------------------------------------------- header fields

  /** `eq_ic`: only the first argument is lowercased. */
  predicate EqIc(a: Bytes, b: Bytes) { Lower(a) == b }

  function FieldOf(line: Bytes): (f: Field)
    requires ':' in line
  {
    var colon := IndexOf(line, ':');
    Field(line[..colon], LeftTrimmed(line[colon + 1..]))
  }

  /** The header lines up to the first empty one; none when a line has no colon. */
  function Fields(lines: seq<Bytes>): (r: Option<seq<Field>>)
  {
    if lines == [] || Trimmed(lines[0]) == "" then Some([])
    else if ':' !in Trimmed(lines[0]) then None
    else
      var rest := Fields(lines[1..]);
      if rest.None? then None else Some([FieldOf(Trimmed(lines[0]))] + rest.value)
  }

  /** The value of the last field called `name`. */
  function Last(fields: seq<Field>, name: Bytes): (r: Option<Bytes>)
    ensures r.Some? <==> exists i :: 0 <= i < |fields| && EqIc(fields[i].name, name)
    ensures r.Some? ==> exists i ::
      && 0 <= i < |fields| && EqIc(fields[i].name, name) && fields[i].value == r.value
      && forall j | i < j < |fields| :: !EqIc(fields[j].name, name)
  {
    if fields == [] then None
    else
      var n := |fields| - 1;
      if EqIc(fields[n].name, name) then Some(fields[n].value)
      else
        assert forall i | 0 <= i < n :: fields[..n][i] == fields[i];
        Last(fields[..n], name)
  }

  function HostOf(value: Bytes): Bytes {
    var v := if Utf8(value) then value else "";
    Lower(Split(v, ':')[0])
  }

  function LengthOf(value: Bytes): Option<nat> {
    if Utf8(value) then ParseUnsigned(Trim(value), 10, MAX_U64) else None
  }

  function UpgradeOf(value: Bytes): Option<Bytes> {
    if Utf8(value) then Some(Lower(Trim(value))) else None
  }

  function HostField(fields: seq<Field>): Bytes {
    match Last(fields, "host") case None => "" case Some(v) => HostOf(v)
  }

  function LengthField(fields: seq<Field>): Option<nat> {
    match Last(fields, "content-length") case None => None case Some(v) => LengthOf(v)
  }

  predicate ChunkedField(fields: seq<Field>) {
    match Last(fields, "transfer-encoding") case None => false case Some(v) => ContainsIc(v, "chunked")
  }

  predicate CloseField(fields: seq<Field>, byDefault: bool) {
    match Last(fields, "connection") case None => byDefault case Some(v) => ContainsIc(v, "close")
  }

  function UpgradeField(fields: seq<Field>): Option<Bytes> {
    match Last(fields, "upgrade") case None => None case Some(v) => UpgradeOf(v)
  }

  predicate ExpectField(fields: seq<Field>) {
    match Last(fields, "expect") case None => false case Some(v) => ContainsIc(v, "100-continue")
  }

  // ---------------------------------------------------------------- request heads

  datatype RequestLine = RequestLine(method_: Method, path: Bytes, version: nat)

  /** Method, path and version, separated by single spaces; the version may be missing. */
  function RequestLineOf(line: Bytes): (r: Option<RequestLine>)
  {
    var sp := IndexOf(line, ' ');
    if sp < 0 then None
    else
      var rest := line[sp + 1..];
      var sp2 := IndexOf(rest, ' ');
      var path := if sp2 < 0 then rest else rest[..sp2];
      var version := if sp2 < 0 then "HTTP/1.1" else rest[sp2 + 1..];
      match MethodOf(line[..sp])
      case None => None
      case Some(m) =>
        if Utf8(path) then Some(RequestLine(m, path, if EndsWith(version, "1.0") then 0 else 1))
        else None
  }

  function RequestOf(rl: RequestLine, fields: seq<Field>, end: nat): Request {
    Request(rl.method_, rl.path, rl.version, HostField(fields), LengthField(fields),
            ChunkedField(fields), CloseField(fields, rl.version == 0), UpgradeField(fields),
            ExpectField(fields), end)
  }

  /** What a complete head, blank line included, says. */
  function HeadOf(head: Bytes): (r: Parsed<Request>)
    ensures r.Ok? ==> r.value.headersEnd == |head|
    ensures r.Ok? || r == Invalid
  {
    var lines := Split(head, '\n');
    match RequestLineOf(Trimmed(lines[0]))
    case None => Invalid
    case Some(rl) =>
      match Fields(lines[1..])
      case None => Invalid
      case Some(fields) => Ok(RequestOf(rl, fields, |head|))
  }

  /** parse_request_fast as a function. */
  function RequestFast(buf: Bytes): Parsed<Request> {
    match FindHeadersEnd(buf)
    case None => Incomplete
    case Some(end) => HeadOf(buf[..end])
  }

  /** Reading the header lines one by one, remembering the latest of each kind, is reading
      the last field of each name. */
  lemma FieldsStep(lines: seq<Bytes>, i: nat)
    requires i < |lines| && Trimmed(lines[i]) != ""
    ensures lines[i..][1..] == lines[i + 1..]
    ensures ':' !in Trimmed(lines[i]) ==> Fields(lines[i..]).None?
    ensures ':' in Trimmed(lines[i]) ==>
      Fields(lines[i..]) == (match Fields(lines[i + 1..])
        case None => None
        case Some(rest) => Some([FieldOf(Trimmed(lines[i]))] + rest))
  {
    assert lines[i..][1..] == lines[i + 1..];
  }

  lemma LastAppend(seen: seq<Field>, f: Field, name: Bytes)
    ensures Last(seen + [f], name) == if EqIc(f.name, name) then Some(f.value) else Last(seen, name)
  {
    assert (seen + [f])[..|seen|] == seen;
  }

  /** `seen` is what the loop has read; the whole is what it read plus what is left. */
  ghost predicate ReadSoFar(lines: seq<Bytes>, i: nat, seen: seq<Field>)
    requires i <= |lines|
  {
    match Fields(lines[i..])
    case None => Fields(lines).None?
    case Some(rest) => Fields(lines) == Some(seen + rest)
  }

  lemma ReadNothing(lines: seq<Bytes>)
    ensures ReadSoFar(lines, 0, [])
  {
    assert lines[0..] == lines;
    assert Fields(lines).Some? ==> [] + Fields(lines).value == Fields(lines).value;
  }

  lemma ReadMore(lines: seq<Bytes>, i: nat, seen: seq<Field>)
    requires i < |lines| && ReadSoFar(lines, i, seen) && Trimmed(lines[i]) != ""
    ensures ':' !in Trimmed(lines[i]) ==> Fields(lines).None?
    ensures ':' in Trimmed(lines[i]) ==> ReadSoFar(lines, i + 1, seen + [FieldOf(Trimmed(lines[i]))])
  {
    FieldsStep(lines, i);
    hide Fields, FieldOf, Trimmed;
    var line := Trimmed(lines[i]);
    match Fields(lines[i + 1..]) {
      case None =>
      case Some(rest) => if ':' in line { Assoc(seen, [FieldOf(line)], rest); }
    }
  }

  lemma ReadAll(lines: seq<Bytes>, i: nat, seen: seq<Field>)
    requires i <= |lines| && ReadSoFar(lines, i, seen)
    requires i == |lines| || Trimmed(lines[i]) == ""
    ensures Fields(lines) == Some(seen)
  {
    assert Fields(lines[i..]) == Some([]);
    assert seen + [] == seen;
  }

  /** One more header line overwrites what its name governs and nothing else. */
  lemma FieldsAppend(seen: seq<Field>, f: Field, byDefault: bool)
    ensures HostField(seen + [f]) == if EqIc(f.name, "host") then HostOf(f.value) else HostField(seen)
    ensures LengthField(seen + [f]) == if EqIc(f.name, "content-length") then LengthOf(f.value) else LengthField(seen)
    ensures ChunkedField(seen + [f]) ==
      if EqIc(f.name, "transfer-encoding") then ContainsIc(f.value, "chunked") else ChunkedField(seen)
    ensures CloseField(seen + [f], byDefault) ==
      if EqIc(f.name, "connection") then ContainsIc(f.value, "close") else CloseField(seen, byDefault)
    ensures UpgradeField(seen + [f]) == if EqIc(f.name, "upgrade") then UpgradeOf(f.value) else UpgradeField(seen)
    ensures ExpectField(seen + [f]) ==
      if EqIc(f.name, "expect") then ContainsIc(f.value, "100-continue") else ExpectField(seen)
  {
    hide HostOf, LengthOf, UpgradeOf, ContainsIc, EqIc, Last;
    LastAppend(seen, f, "host");
    LastAppend(seen, f, "content-length");
    LastAppend(seen, f, "transfer-encoding");
    LastAppend(seen, f, "connection");
    LastAppend(seen, f, "upgrade");
    LastAppend(seen, f, "expect");
  }

  /** The six names the parser looks for exclude each other. */
  lemma NamesDiffer(name: Bytes)
    ensures EqIc(name, "host") ==> !EqIc(name, "content-length") && !EqIc(name, "transfer-encoding")
    ensures EqIc(name, "host") ==> !EqIc(name, "connection") && !EqIc(name, "upgrade") && !EqIc(name, "expect")
    ensures EqIc(name, "content-length") ==> !EqIc(name, "transfer-encoding") && !EqIc(name, "connection")
    ensures EqIc(name, "content-length") ==> !EqIc(name, "upgrade") && !EqIc(name, "expect")
    ensures EqIc(name, "transfer-encoding") ==> !EqIc(name, "connection") && !EqIc(name, "upgrade")
    ensures EqIc(name, "transfer-encoding") ==> !EqIc(name, "expect")
    ensures EqIc(name, "connection") ==> !EqIc(name, "upgrade") && !EqIc(name, "expect")
    ensures EqIc(name, "upgrade") ==> !EqIc(name, "expect")
  {
  }

  lemma FieldsNone(byDefault: bool)
    ensures HostField([]) == "" && LengthField([]) == None && !ChunkedField([])
    ensures CloseField([], byDefault) == byDefault && UpgradeField([]) == None && !ExpectField([])
  {
  }

  method ParseRequestFast(buf: Bytes) returns (r: Parsed<Request>)
    ensures r == RequestFast(buf)
  {
    hide Fields, Trimmed, Last, LeftTrimmed, EqIc, ContainsIc, HostOf, LengthOf, UpgradeOf, Split, IndexOf;
    hide HostField, LengthField, ChunkedField, CloseField, UpgradeField, ExpectField, ReadSoFar;
    hide FindHeadersEnd, RequestLineOf, StatusOf;
    var found := FindHeadersEnd(buf);
    if found.None? { return Incomplete; }
    var end := found.value;
    var lines := Split(buf[..end], '\n');
    var reqLine := TrimCrlf(lines[0]);
    var parsed := RequestLineOf(reqLine);
    if parsed.None? { return Invalid; }
    var rl := parsed.value;
    lines := lines[1..];

    var host := "";
    var contentLength: Option<nat> := None;
    var chunked := false;
    var close := rl.version == 0;
    var upgrade: Option<Bytes> := None;
    var expectContinue := false;
    var i := 0;
    ghost var seen: seq<Field> := [];
    ReadNothing(lines);
    FieldsNone(rl.version == 0);
    while i < |lines|
      invariant i <= |lines|
      invariant ReadSoFar(lines, i, seen)
      invariant host == HostField(seen) && contentLength == LengthField(seen)
      invariant chunked == ChunkedField(seen) && close == CloseField(seen, rl.version == 0)
      invariant upgrade == UpgradeField(seen) && expectContinue == ExpectField(seen)
    {
      var line := TrimCrlf(lines[i]);
      if line == "" { break; }
      ReadMore(lines, i, seen);
      var colon := IndexOf(line, ':');
      if colon < 0 { return Invalid; }
      var name := line[..colon];
      var value := LTrim(line[colon + 1..]);
      NamesDiffer(name);
      if EqIc(name, "host") {
        host := HostOf(value);
      } else if EqIc(name, "content-length") {
        contentLength := LengthOf(value);
      } else if EqIc(name, "transfer-encoding") {
        chunked := ContainsIc(value, "chunked");
      } else if EqIc(name, "connection") {
        close := ContainsIc(value, "close");
      } else if EqIc(name, "upgrade") {
        upgrade := UpgradeOf(value);
      } else if EqIc(name, "expect") {
        expectContinue := ContainsIc(value, "100-continue");
      }
      ghost var f := Field(name, value);
      FieldsAppend(seen, f, rl.version == 0);
      seen := seen + [f];
      i := i + 1;
    }
    ReadAll(lines, i, seen);
    r := Ok(Request(rl.method_, rl.path, rl.version, host, contentLength, chunked, close,
                    upgrade, expectContinue, end));
  }

  /** A head is a head on its own. */
  lemma HeadAlone(buf: Bytes)
    requires FindHeadersEnd(buf).Some?
    ensures FindHeadersEnd(buf[..FindHeadersEnd(buf).value]) == FindHeadersEnd(buf)
  {
    var end := FindHeadersEnd(buf).value;
    assert buf == buf[..end] + buf[end..];
    BlankLinePrefix(buf[..end], buf[end..], end);
    forall k | 0 <= k < end ensures !BlankLineEndsAt(buf[..end], k) { BlankLinePrefix(buf[..end], buf[end..], k); }
    FindHeadersEndUnique(buf[..end], end);
  }

  /** Once the fast parser has decided, more input does not change its mind; an accepted head
      ends inside the buffer, at its first blank line, and is accepted on its own. */
  lemma RequestFastStable(buf: Bytes, ext: Bytes)
    requires RequestFast(buf) != Incomplete
    ensures RequestFast(buf + ext) == RequestFast(buf)
    ensures RequestFast(buf).Ok? ==> Some(RequestFast(buf).value.headersEnd) == FindHeadersEnd(buf)
    ensures RequestFast(buf).Ok? ==> RequestFast(buf[..RequestFast(buf).value.headersEnd]) == RequestFast(buf)
  {
    var end := FindHeadersEnd(buf).value;
    HeadersEndStable(buf, ext);
    HeadAlone(buf);
    assert HeadOf(buf[..end]).Ok? ==> HeadOf(buf[..end]).value.headersEnd == end;
    hide HeadOf, FindHeadersEnd, BlankLineEndsAt;
    TakeOfAppend(buf, ext, 0, end);
    TakeOfAppend(buf[..end], [], 0, end);
  }

  /** Before the blank line has arrived the fast parser waits. */
  lemma RequestFastWaits(buf: Bytes, n: nat)
    requires RequestFast(buf).Ok? && n < RequestFast(buf).value.headersEnd
    ensures RequestFast(buf[..n]) == Incomplete
  {
    HeadersEndOfPrefix(buf, n);
  }

  // ---------------------------------------------------------------- response heads

  function ResponseOf(status: nat, fields: seq<Field>, end: nat): Response {
    Response(status, LengthField(fields), ChunkedField(fields), CloseField(fields, false), end)
  }

  /** The three status digits at byte 9 of the status line. */
  function StatusOf(statusLine: Bytes): Option<nat> {
    if |statusLine| < 12 || !Utf8(statusLine[9..12]) then None
    else ParseUnsigned(Trim(statusLine[9..12]), 10, MAX_U16)
  }

  /** parse_response_fast as a function; `Panicked` where it slices out of range. */
  function ResponseFast(buf: Bytes): Parsed<Response> {
    match FindHeadersEnd(buf)
    case None => Incomplete
    case Some(end) =>
      var lf := IndexOf(buf, '\n');
      if lf < 0 then Incomplete
      else
        match StatusOf(buf[..lf])
        case None => Invalid
        case Some(status) =>
          if lf + 1 > end - 4 then Panicked
          else ResponseWith(status, buf[lf + 1..end - 4], end)
  }

  /** The answer for a readable status line followed by the text `headers`. */
  function ResponseWith(status: nat, headers: Bytes, end: nat): (r: Parsed<Response>)
    ensures r.Ok? ==> r.value.headersEnd == end && r.value.status == status
    ensures r.Ok? || r == Invalid
  {
    match Fields(Split(headers, '\n'))
    case None => Invalid
    case Some(fields) => Ok(ResponseOf(status, fields, end))
  }

  method ParseResponseFast(buf: Bytes) returns (r: Parsed<Response>)
    ensures r == ResponseFast(buf)
  {
    hide Fields, Trimmed, Last, LeftTrimmed, EqIc, ContainsIc, HostOf, LengthOf, UpgradeOf, Split, IndexOf;
    hide HostField, LengthField, ChunkedField, CloseField, UpgradeField, ExpectField, ReadSoFar;
    hide FindHeadersEnd, RequestLineOf, StatusOf;
    var found := FindHeadersEnd(buf);
    if found.None? { return Incomplete; }
    var end := found.value;
    var lf := IndexOf(buf, '\n');
    if lf < 0 { return Incomplete; }
    var parsed := StatusOf(buf[..lf]);
    if parsed.None? { return Invalid; }
    if lf + 1 > end - 4 { return Panicked; }

    var contentLength: Option<nat> := None;
    var chunked, close := false, false;
    var lines := Split(buf[lf + 1..end - 4], '\n');
    var i := 0;
    ghost var seen: seq<Field> := [];
    ReadNothing(lines);
    FieldsNone(false);
    while i < |lines|
      invariant i <= |lines|
      invariant ReadSoFar(lines, i, seen)
      invariant contentLength == LengthField(seen)
      invariant chunked == ChunkedField(seen) && close == CloseField(seen, false)
    {
      var line := TrimCrlf(lines[i]);
      if line == "" { break; }
      ReadMore(lines, i, seen);
      var colon := IndexOf(line, ':');
      if colon < 0 { return Invalid; }
      var name := line[..colon];
      var value := LTrim(line[colon + 1..]);
      NamesDiffer(name);
      if EqIc(name, "content-length") {
        contentLength := LengthOf(value);
      } else if EqIc(name, "transfer-encoding") {
        chunked := ContainsIc(value, "chunked");
      } else if EqIc(name, "connection") {
        close := ContainsIc(value, "close");
      }
      ghost var f := Field(name, value);
      FieldsAppend(seen, f, false);
      seen := seen + [f];
      i := i + 1;
    }
    ReadAll(lines, i, seen);
    r := Ok(Response(parsed.value, contentLength, chunked, close, end));
  }

  /** The first LF of a buffer with a blank line lies inside or before that blank line. */
  lemma FirstLfBounds(buf: Bytes)
    requires FindHeadersEnd(buf).Some?
    ensures var end := FindHeadersEnd(buf).value;
      0 <= IndexOf(buf, '\n') <= end - 3 && IndexOf(buf, '\n') != end - 4
  {
    assert buf[FindHeadersEnd(buf).value - 3] == '\n';
  }

  /** The slice goes out of range exactly for a readable status line with no header line:
      the first LF of the buffer is already the first LF of the blank line. */
  lemma ResponsePanicsIff(buf: Bytes)
    ensures ResponseFast(buf) == Panicked <==>
      && FindHeadersEnd(buf).Some?
      && IndexOf(buf, '\n') == FindHeadersEnd(buf).value - 3
      && StatusOf(buf[..FindHeadersEnd(buf).value - 3]).Some?
  {
    if FindHeadersEnd(buf).Some? { FirstLfBounds(buf); }
  }

  /** The same for responses: a decision is final and inside the buffer. */
  lemma ResponseFastStable(buf: Bytes, ext: Bytes)
    requires ResponseFast(buf) != Incomplete
    ensures ResponseFast(buf + ext) == ResponseFast(buf)
    ensures ResponseFast(buf).Ok? ==> Some(ResponseFast(buf).value.headersEnd) == FindHeadersEnd(buf)
  {
    hide StatusOf, IndexOf, FindHeadersEnd, ResponseWith, BlankLineEndsAt;
    HeadersEndStable(buf, ext);
    FirstLfBounds(buf);
    var end, lf := FindHeadersEnd(buf).value, IndexOf(buf, '\n');
    IndexOfStable(buf, '\n', ext);
    TakeOfAppend(buf, ext, 0, lf);
    if lf + 1 <= end - 4 { TakeOfAppend(buf, ext, lf + 1, end - 4); }
  }

  // ---------------------------------------------------------------- chunk sizes

  datatype ChunkHead = ChunkHead(size: nat, length: nat)

  /** parse_chunk_size: the hexadecimal number before the first semicolon of the first line,
      and the length of that line with its LF. */
  function ChunkSize(buf: Bytes): (r: Parsed<ChunkHead>)
    ensures r.Ok? ==> r.value.size <= MAX_CHUNK && 0 < r.value.length <= |buf|
    ensures r == Incomplete <==> '\n' !in buf
  {
    var lf := IndexOf(buf, '\n');
    if lf < 0 then Incomplete
    else
      var line := Trimmed(buf[..lf]);
      var hex := Split(line, ';')[0];
      if !Utf8(hex) then Invalid
      else
        match ParseUnsigned(Trim(hex), 16, MAX_CHUNK)
        case None => Invalid
        case Some(size) => Ok(ChunkHead(size, lf + 1))
  }

  lemma ChunkSizeStable(buf: Bytes, ext: Bytes)
    requires ChunkSize(buf) != Incomplete
    ensures ChunkSize(buf + ext) == ChunkSize(buf)
  {
    IndexOfStable(buf, '\n', ext);
    var lf := IndexOf(buf, '\n');
    TakeOfAppend(buf, ext, 0, lf);
  }
}
