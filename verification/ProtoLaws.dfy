/** What the parsers read out of accepted heads, in terms of the text alone: numbers, names and
    tokens as the header lines write them. */
module ProtoLaws {
  import opened Text
  import opened Numbers
  import opened Proto

  /** The header lines of `head` are `fields`. */
  ghost predicate HasFields(head: Bytes, fields: seq<Field>) {
    Fields(Split(head, '\n')[1..]) == Some(fields)
  }

  /** The last of the fields called `name`, in any case, has this value. */
  ghost predicate LastIs(fields: seq<Field>, name: Bytes, value: Bytes) {
    exists i ::
      && 0 <= i < |fields| && Lower(fields[i].name) == name && fields[i].value == value
      && forall j | i < j < |fields| :: Lower(fields[j].name) != name
  }

  ghost predicate NoneIs(fields: seq<Field>, name: Bytes) {
    forall i | 0 <= i < |fields| :: Lower(fields[i].name) != name
  }

  lemma LastMeans(fields: seq<Field>, name: Bytes)
    ensures forall v :: LastIs(fields, name, v) <==> Last(fields, name) == Some(v)
    ensures NoneIs(fields, name) <==> Last(fields, name) == None
  {
    hide Last;
    forall v ensures LastIs(fields, name, v) <==> Last(fields, name) == Some(v) {
      if LastIs(fields, name, v) {
        var i :| 0 <= i < |fields| && Lower(fields[i].name) == name && fields[i].value == v
          && forall j | i < j < |fields| :: Lower(fields[j].name) != name;
        assert EqIc(fields[i].name, name);
      }
    }
  }

  // ---------------------------------------------------------------- white space and numbers

  ghost predicate White(s: Bytes) { forall c | c in s :: c == ' ' || '\t' <= c <= '\r' }

  /** `value` is `core` with white space around it, and `core` has none at its ends. */
  ghost predicate Around(value: Bytes, core: Bytes) {
    && (core != "" ==> !Space(core[0]) && !Space(core[|core| - 1]))
    && exists i, j :: 0 <= i <= j <= |value| && White(value[..i]) && value[i..j] == core && White(value[j..])
  }

  lemma {:induction false} TrimStartWhite(pre: Bytes, rest: Bytes)
    requires White(pre) && (rest != "" ==> !Space(rest[0]))
    ensures TrimStart(pre + rest) == rest
    decreases |pre|
  {
    if pre == "" {
      assert pre + rest == rest;
    } else {
      assert pre[0] in pre && (pre + rest)[0] == pre[0] && (pre + rest)[1..] == pre[1..] + rest;
      assert forall c | c in pre[1..] :: c in pre;
      TrimStartWhite(pre[1..], rest);
    }
  }

  lemma {:induction false} TrimEndWhite(core: Bytes, post: Bytes)
    requires White(post) && (core != "" ==> !Space(core[|core| - 1]))
    ensures TrimEnd(core + post) == core
    decreases |post|
  {
    var s := core + post;
    if post == "" {
      assert s == core;
    } else {
      assert post[|post| - 1] in post && s[|s| - 1] == post[|post| - 1];
      assert s[..|s| - 1] == core + post[..|post| - 1];
      var front := post[..|post| - 1];
      forall c | c in front ensures c in post { var i :| 0 <= i < |front| && front[i] == c; assert post[i] == c; }
      TrimEndWhite(core, front);
    }
  }

  lemma TrimAround(value: Bytes, core: Bytes)
    requires Around(value, core)
    ensures Trim(value) == core
  {
    hide White, TrimStart, TrimEnd;
    var i, j :| 0 <= i <= j <= |value| && White(value[..i]) && value[i..j] == core && White(value[j..]);
    assert value == value[..i] + (core + value[j..]);
    TrimParts(value[..i], core, value[j..]);
  }

  lemma TrimParts(pre: Bytes, core: Bytes, post: Bytes)
    requires White(pre) && White(post) && (core != "" ==> !Space(core[0]) && !Space(core[|core| - 1]))
    ensures Trim(pre + (core + post)) == core
  {
    hide TrimStart, TrimEnd;
    if core == "" {
      var value := pre + (core + post);
      assert value == pre + post && White(value);
      TrimStartWhite(value, "");
      TrimEndWhite("", "");
      assert value + "" == value;
    } else {
      hide White;
      assert (core + post)[0] == core[0];
      TrimStartWhite(pre, core + post);
      TrimEndWhite(core, post);
    }
  }

  /** No byte above 127. */
  ghost predicate Ascii(s: Bytes) { forall c | c in s :: c as int < 0x80 }

  lemma {:induction false} AsciiIsUtf8(s: Bytes)
    requires Ascii(s)
    ensures Utf8(s)
  {
    if s != "" {
      assert s[0] in s && forall c | c in s[1..] :: c in s;
      AsciiIsUtf8(s[1..]);
    }
  }

  ghost predicate Signed(core: Bytes, digits: Bytes) { core == digits || core == "+" + digits }

  lemma DigitsOf(digits: Bytes)
    requires Digits(digits)
    ensures IsDigits(digits, 10) && digits[0] != '+'
  {
    assert digits[0] in digits;
  }

  /** The digits of `n`, perhaps after a plus sign and zeros, are read as `n`, unless that is too
      large. */
  lemma NumberRead(core: Bytes, k: nat, n: nat, max: nat)
    requires Signed(core, Zeros(k) + Decimal(n))
    ensures ParseUnsigned(core, 10, max) == if n <= max then Some(n) else None
  {
    var digits := Zeros(k) + Decimal(n);
    assert Digits(digits);
    DigitsOf(digits);
    ZerosValue(k, Decimal(n));
    DecimalValue(n);
    if core != digits { assert core[0] == '+' && core[1..] == digits; }
  }

  /** Nothing else is a number. */
  lemma NumberRefused(core: Bytes, max: nat)
    requires !Digits(core) && !(core != "" && core[0] == '+' && Digits(core[1..]))
    ensures ParseUnsigned(core, 10, max) == None
  {
    var digits := if core != "" && core[0] == '+' then core[1..] else core;
    if digits != "" && IsDigits(digits, 10) {
      forall c | c in digits ensures '0' <= c <= '9' { assert DigitValue(c) < 10; }
      assert Digits(digits);
    }
  }

  // ---------------------------------------------------------------- single values

  const LARGEST: nat := 18_446_744_073_709_551_615

  /** A length as a value writes it: decimal digits, an optional plus sign before and white space
      around them. */
  ghost predicate WritesNumber(value: Bytes, n: nat) {
    exists core, k: nat :: Around(value, core) && Signed(core, Zeros(k) + Decimal(n))
  }

  ghost predicate WritesNone(value: Bytes) {
    exists core :: Around(value, core) && !Digits(core) && !(core != "" && core[0] == '+' && Digits(core[1..]))
  }

  lemma LengthRead(value: Bytes, n: nat)
    requires Ascii(value) && WritesNumber(value, n)
    ensures LengthOf(value) == if n <= LARGEST then Some(n) else None
  {
    hide Utf8, ParseUnsigned, Trim, Signed;
    var core, k: nat :| Around(value, core) && Signed(core, Zeros(k) + Decimal(n));
    AsciiIsUtf8(value);
    TrimAround(value, core);
    NumberRead(core, k, n, MAX_U64);
  }

  lemma LengthRefused(value: Bytes)
    requires WritesNone(value)
    ensures LengthOf(value) == None
  {
    hide Utf8, ParseUnsigned, Trim;
    var core :| Around(value, core) && !Digits(core) && !(core != "" && core[0] == '+' && Digits(core[1..]));
    TrimAround(value, core);
    NumberRefused(core, MAX_U64);
  }

  /** `token` stands somewhere in `value`, in any case. */
  ghost predicate Mentions(value: Bytes, token: Bytes) { exists i: nat :: StandsAt(value, token, i) }

  ghost predicate StandsAt(value: Bytes, token: Bytes, i: nat) {
    i + |token| <= |value| && Lower(value[i..i + |token|]) == token
  }

  lemma MentionsIs(value: Bytes, token: Bytes)
    ensures ContainsIc(value, token) <==> Mentions(value, token)
  {
    if ContainsIc(value, token) {
      var i :| 0 <= i <= |value| && IcAt(value, i, token);
      assert StandsAt(value, token, i);
    }
    if Mentions(value, token) {
      var i: nat :| StandsAt(value, token, i);
      assert IcAt(value, i, token);
    }
  }

  /** The name of a host, without its port. */
  lemma HostRead(name: Bytes, port: Bytes)
    requires ':' !in name && (port == "" || port[0] == ':')
    ensures Utf8(name + port) ==> HostOf(name + port) == Lower(name)
    ensures !Utf8(name + port) ==> HostOf(name + port) == ""
  {
    hide Utf8;
    if port == "" {
      assert name + port == name;
      SplitNone(name, ':');
    } else {
      assert name + port == name + [':'] + port[1..];
      SplitCons(name, ':', port[1..]);
    }
    SplitNone("", ':');
  }

  // ---------------------------------------------------------------- requests

  /** What the parser reads out of the fields, each told from the last line of its name. */
  ghost predicate Framing(fields: seq<Field>, length: Option<nat>, chunked: bool) {
    && (NoneIs(fields, "content-length") ==> length == None)
    && (forall v, n: nat | LastIs(fields, "content-length", v) && Ascii(v) && WritesNumber(v, n) ::
          length == if n <= LARGEST then Some(n) else None)
    && (forall v | LastIs(fields, "content-length", v) && WritesNone(v) :: length == None)
    && (NoneIs(fields, "transfer-encoding") ==> !chunked)
    && (forall v | LastIs(fields, "transfer-encoding", v) :: chunked == Mentions(v, "chunked"))
  }

  lemma FramingRead(fields: seq<Field>)
    ensures Framing(fields, LengthField(fields), ChunkedField(fields))
  {
    hide Last, LengthOf, Mentions, ContainsIc, WritesNumber, WritesNone, LastIs, NoneIs;
    LastMeans(fields, "content-length");
    LastMeans(fields, "transfer-encoding");
    forall v, n: nat | LastIs(fields, "content-length", v) && Ascii(v) && WritesNumber(v, n)
      ensures LengthField(fields) == if n <= LARGEST then Some(n) else None
    {
      LengthRead(v, n);
    }
    forall v | LastIs(fields, "content-length", v) && WritesNone(v) ensures LengthField(fields) == None {
      LengthRefused(v);
    }
    forall v | LastIs(fields, "transfer-encoding", v) ensures ChunkedField(fields) == Mentions(v, "chunked") {
      MentionsIs(v, "chunked");
    }
  }

  ghost predicate Closing(fields: seq<Field>, close: bool, byDefault: bool) {
    && (NoneIs(fields, "connection") ==> close == byDefault)
    && forall v | LastIs(fields, "connection", v) :: close == Mentions(v, "close")
  }

  lemma ClosingRead(fields: seq<Field>, byDefault: bool)
    ensures Closing(fields, CloseField(fields, byDefault), byDefault)
  {
    hide Last, Mentions, ContainsIc, LastIs, NoneIs;
    LastMeans(fields, "connection");
    forall v | LastIs(fields, "connection", v) ensures CloseField(fields, byDefault) == Mentions(v, "close") {
      MentionsIs(v, "close");
    }
  }

  /** `name` is what stands before the first colon of `v`. */
  ghost predicate HostPart(v: Bytes, name: Bytes) {
    name <= v && ':' !in name && (|v| > |name| ==> v[|name|] == ':')
  }

  ghost predicate Hosting(fields: seq<Field>, host: Bytes) {
    && (NoneIs(fields, "host") ==> host == "")
    && forall v, name | LastIs(fields, "host", v) && HostPart(v, name) :: host == if Utf8(v) then Lower(name) else ""
  }

  lemma HostingRead(fields: seq<Field>)
    ensures Hosting(fields, HostField(fields))
  {
    hide Last, HostOf, LastIs, NoneIs, Utf8;
    LastMeans(fields, "host");
    forall v, name | LastIs(fields, "host", v) && HostPart(v, name)
      ensures HostField(fields) == if Utf8(v) then Lower(name) else ""
    {
      HostRead(name, v[|name|..]);
      assert v == name + v[|name|..];
    }
  }

  ghost predicate Extras(fields: seq<Field>, upgrade: Option<Bytes>, expects: bool) {
    && (NoneIs(fields, "upgrade") ==> upgrade == None)
    && (forall v, core | LastIs(fields, "upgrade", v) && Around(v, core) ::
          upgrade == if Utf8(v) then Some(Lower(core)) else None)
    && (NoneIs(fields, "expect") ==> !expects)
    && forall v | LastIs(fields, "expect", v) :: expects == Mentions(v, "100-continue")
  }

  lemma ExtrasRead(fields: seq<Field>)
    ensures Extras(fields, UpgradeField(fields), ExpectField(fields))
  {
    hide Last, LastIs, NoneIs, Utf8, Around, Trim, Mentions, ContainsIc;
    LastMeans(fields, "upgrade");
    LastMeans(fields, "expect");
    forall v, core | LastIs(fields, "upgrade", v) && Around(v, core)
      ensures UpgradeField(fields) == if Utf8(v) then Some(Lower(core)) else None
    {
      TrimAround(v, core);
    }
    forall v | LastIs(fields, "expect", v) ensures ExpectField(fields) == Mentions(v, "100-continue") {
      MentionsIs(v, "100-continue");
    }
  }

  /** The words of a request line: a method, a path without a space and perhaps a version. */
  ghost predicate LineSays(line: Bytes, m: Method, path: Bytes, version: nat) {
    && ' ' !in path
    && if line == MethodName(m) + [' '] + path then version == 1
       else MethodName(m) + [' '] + path + [' '] <= line
            && version == if EndsWith(line[|MethodName(m)| + |path| + 2..], "1.0") then 0 else 1
  }

  lemma LineRead(line: Bytes)
    requires RequestLineOf(line).Some?
    ensures var rl := RequestLineOf(line).value; LineSays(line, rl.method_, rl.path, rl.version)
  {
    hide IndexOf, Utf8, EndsWith;
    var rl := RequestLineOf(line).value;
    var sp := IndexOf(line, ' ');
    var rest := line[sp + 1..];
    var sp2 := IndexOf(rest, ' ');
    assert line == line[..sp] + [' '] + rest && line[..sp] == MethodName(rl.method_);
    NoDefaultVersion();
    if sp2 >= 0 {
      var v := rest[sp2 + 1..];
      assert rest == rl.path + [' '] + v;
      assert line == MethodName(rl.method_) + [' '] + rl.path + [' '] + v;
      assert ' ' !in rl.path;
    } else {
      assert line == MethodName(rl.method_) + [' '] + rl.path;
    }
  }

  lemma NoDefaultVersion()
    ensures !EndsWith("HTTP/1.1", "1.0")
  {
    assert "HTTP/1.1"[5..][2] == '1' && "1.0"[2] == '0';
  }

  /** Every accepted request says what its text says: method, path and version of the first line;
      and each header value from the last line of its name, the length as a decimal number. */
  lemma RequestMeans(head: Bytes, req: Request, fields: seq<Field>)
    requires RequestFast(head) == Ok(req) && req.headersEnd == |head| && HasFields(head, fields)
    ensures LineSays(Trimmed(Split(head, '\n')[0]), req.method_, req.path, req.version)
    ensures Framing(fields, req.contentLength, req.chunked) && Closing(fields, req.close, req.version == 0)
    ensures Hosting(fields, req.host) && Extras(fields, req.upgrade, req.expectContinue)
  {
    RequestParts(head);
    hide HeadOf, RequestFast, FindHeadersEnd, Trimmed, Split, RequestLineOf, Fields, LineSays;
    hide Framing, Closing, Hosting, Extras, HostField, LengthField, ChunkedField, CloseField, UpgradeField, ExpectField;
    LineRead(Trimmed(Split(head, '\n')[0]));
    FramingRead(fields);
    ClosingRead(fields, req.version == 0);
    HostingRead(fields);
    ExtrasRead(fields);
  }

  lemma RequestParts(head: Bytes)
    requires RequestFast(head).Ok? && RequestFast(head).value.headersEnd == |head|
    ensures var lines := Split(head, '\n');
      && RequestLineOf(Trimmed(lines[0])).Some? && Fields(lines[1..]).Some?
      && RequestFast(head).value == RequestOf(RequestLineOf(Trimmed(lines[0])).value, Fields(lines[1..]).value, |head|)
  {
    hide FindHeadersEnd, Split, Fields, RequestLineOf, Trimmed, RequestOf;
    assert head[..|head|] == head;
  }

  /** In particular: content-length is the number its decimal digits write, up to the largest of
      64 bits. */
  lemma ContentLengthIs(head: Bytes, fields: seq<Field>, value: Bytes, n: nat)
    requires RequestFast(head).Ok? && RequestFast(head).value.headersEnd == |head| && HasFields(head, fields)
    requires LastIs(fields, "content-length", value) && Ascii(value) && WritesNumber(value, n)
    ensures RequestFast(head).value.contentLength == if n <= 18_446_744_073_709_551_615 then Some(n) else None
  {
    hide RequestFast, HasFields, LastIs, WritesNumber, LineSays, Closing, Hosting, Extras, Split, Trimmed;
    RequestMeans(head, RequestFast(head).value, fields);
  }

  // ---------------------------------------------------------------- what is accepted

  /** How many lines come before the first empty one. */
  function Headers(lines: seq<Bytes>): (n: nat)
    ensures n <= |lines|
  {
    if lines == [] || Trimmed(lines[0]) == "" then 0 else 1 + Headers(lines[1..])
  }

  lemma {:induction false} HeadersAre(lines: seq<Bytes>)
    ensures forall i | 0 <= i < Headers(lines) :: Trimmed(lines[i]) != ""
    ensures Headers(lines) < |lines| ==> Trimmed(lines[Headers(lines)]) == ""
  {
    hide Trimmed;
    if lines != [] && Trimmed(lines[0]) != "" {
      HeadersAre(lines[1..]);
      assert forall i | 0 < i < |lines| :: lines[i] == lines[1..][i - 1];
    }
  }

  /** A header line: a name, the first colon, spaces and tabs, and the value. */
  ghost predicate HeaderSays(line: Bytes, f: Field) {
    var colon, start := |f.name|, |line| - |f.value|;
    && colon < start && line[..colon] == f.name && line[colon] == ':' && ':' !in f.name
    && (forall i | colon < i < start :: line[i] == ' ' || line[i] == '\t')
    && line[start..] == f.value && (f.value != "" ==> f.value[0] != ' ' && f.value[0] != '\t')
  }

  lemma FieldSays(line: Bytes)
    requires ':' in line
    ensures HeaderSays(line, FieldOf(line))
  {
    hide IndexOf, LeftTrimmed;
    var colon := IndexOf(line, ':');
    ValueSays(line, colon, line[colon + 1..], LeftTrimmed(line[colon + 1..]));
  }

  lemma ValueSays(line: Bytes, colon: nat, rest: Bytes, value: Bytes)
    requires colon < |line| && rest == line[colon + 1..] && value == LeftTrimmed(rest)
    ensures var start := |line| - |value|;
      && colon < start && line[start..] == value && (value != "" ==> value[0] != ' ' && value[0] != '\t')
      && forall i | colon < i < start :: line[i] == ' ' || line[i] == '\t'
  {
    hide LeftTrimmed;
    var start := |line| - |value|;
    forall i | colon < i < start ensures line[i] == ' ' || line[i] == '\t' {
      assert Blank(rest[i - colon - 1]) && line[i] == rest[i - colon - 1];
    }
    assert line[start..] == rest[|rest| - |value|..];
  }

  /** The fields are the lines before the first empty one, in order; none are read if one of those
      lines has no colon. */
  lemma {:induction false} FieldsAre(lines: seq<Bytes>)
    ensures var n := Headers(lines);
      && (Fields(lines).Some? <==> forall i | 0 <= i < n :: ':' in Trimmed(lines[i]))
      && (Fields(lines).Some? ==>
            && |Fields(lines).value| == n
            && forall i | 0 <= i < n :: HeaderSays(Trimmed(lines[i]), Fields(lines).value[i]))
  {
    hide Trimmed, FieldOf, HeaderSays;
    HeadersAre(lines);
    if lines != [] && Trimmed(lines[0]) != "" {
      var n := Headers(lines);
      FieldsAre(lines[1..]);
      assert forall i | 0 < i < n :: lines[i] == lines[1..][i - 1];
      if ':' in Trimmed(lines[0]) { FieldSays(Trimmed(lines[0])); }
      assert n > 0;
    }
  }

  /** A request line is accepted if and only if it says something: one of the nine methods, a
      space, and a path in UTF-8. */
  lemma LineAcceptedIff(line: Bytes)
    ensures RequestLineOf(line).Some? <==> exists m, path :: Utf8(path) && LineStarts(line, m, path)
  {
    hide Utf8, EndsWith;
    if RequestLineOf(line).Some? {
      var rl := RequestLineOf(line).value;
      LineRead(line);
      assert LineStarts(line, rl.method_, rl.path);
      PathUtf8(line);
    }
    if m, path :| Utf8(path) && LineStarts(line, m, path) { Accepted(line, m, path); }
  }

  ghost predicate LineStarts(line: Bytes, m: Method, path: Bytes) {
    ' ' !in path && (line == MethodName(m) + [' '] + path || MethodName(m) + [' '] + path + [' '] <= line)
  }

  lemma PathUtf8(line: Bytes)
    requires RequestLineOf(line).Some?
    ensures Utf8(RequestLineOf(line).value.path)
  {
    hide Utf8, IndexOf, EndsWith;
  }

  lemma Accepted(line: Bytes, m: Method, path: Bytes)
    requires Utf8(path) && LineStarts(line, m, path)
    ensures RequestLineOf(line).Some?
  {
    hide Utf8, EndsWith, IndexOf, MethodName;
    var name := MethodName(m);
    var rest := line[|name| + 1..];
    NameSpaceless(m);
    assert line == name + [' '] + rest by { assert line[..|name| + 1] == name + [' ']; }
    IndexOfAfter(name, ' ', rest);
    if line == name + [' '] + path {
      assert rest == path;
    } else {
      var v := rest[|path| + 1..];
      assert rest == path + [' '] + v by { assert rest[..|path| + 1] == path + [' ']; }
      IndexOfAfter(path, ' ', v);
    }
    NameKnown(m);
    hide MethodOf;
  }

  lemma NameSpaceless(m: Method)
    ensures ' ' !in MethodName(m)
  {
  }

  lemma NameKnown(m: Method)
    ensures MethodOf(MethodName(m)) == Some(m)
  {
  }

  /** When the fast parser accepts, waits or refuses, of a head that starts the buffer. */
  lemma RequestAcceptedIff(buf: Bytes)
    ensures RequestFast(buf) == Incomplete <==> FindHeadersEnd(buf).None?
    ensures RequestFast(buf).Ok? <==>
      FindHeadersEnd(buf).Some? &&
      var lines := Split(buf[..FindHeadersEnd(buf).value], '\n');
      && (exists m, path :: Utf8(path) && LineStarts(Trimmed(lines[0]), m, path))
      && (forall i | 0 <= i < Headers(lines[1..]) :: ':' in Trimmed(lines[1..][i]))
    ensures RequestFast(buf) != Panicked
  {
    hide FindHeadersEnd, Split, Utf8, LineStarts, Trimmed, RequestLineOf, Fields, Headers, RequestOf;
    if FindHeadersEnd(buf).Some? {
      var lines := Split(buf[..FindHeadersEnd(buf).value], '\n');
      LineAcceptedIff(Trimmed(lines[0]));
      FieldsAre(lines[1..]);
    }
  }

  // ---------------------------------------------------------------- responses

  /** Every accepted response says what its text says; its status is the number of the three
      characters after the ninth. */
  lemma ResponseMeans(buf: Bytes, resp: Response, fields: seq<Field>)
    requires ResponseFast(buf) == Ok(resp) && resp.headersEnd <= |buf| && ResponseHas(buf, resp.headersEnd, fields)
    ensures Framing(fields, resp.contentLength, resp.chunked) && Closing(fields, resp.close, false)
    ensures |buf| >= 12 && forall n | 100 <= n < 1000 && buf[9..12] == Decimal(n) :: resp.status == n
  {
    hide ResponseFast, ResponseHas, Framing, Closing, StatusOf, LengthField, ChunkedField, CloseField, Decimal, IndexOf;
    ResponseParts(buf, resp, fields);
    FramingRead(fields);
    ClosingRead(fields, false);
    var lf := IndexOf(buf, '\n');
    StatusLong(buf[..lf]);
    assert buf[..lf][9..12] == buf[9..12];
    forall n | 100 <= n < 1000 && buf[9..12] == Decimal(n) ensures resp.status == n { StatusRead(buf[..lf], n); }
  }

  /** The lines between the first one and the blank line are `fields`. */
  ghost predicate ResponseHas(buf: Bytes, end: nat, fields: seq<Field>) {
    var lf := IndexOf(buf, '\n');
    0 <= lf && lf + 1 <= end - 4 <= |buf| && Fields(Split(buf[lf + 1..end - 4], '\n')) == Some(fields)
  }

  lemma ResponseParts(buf: Bytes, resp: Response, fields: seq<Field>)
    requires ResponseFast(buf) == Ok(resp) && resp.headersEnd <= |buf| && ResponseHas(buf, resp.headersEnd, fields)
    ensures 0 <= IndexOf(buf, '\n') && StatusOf(buf[..IndexOf(buf, '\n')]) == Some(resp.status)
    ensures resp.contentLength == LengthField(fields) && resp.chunked == ChunkedField(fields)
    ensures resp.close == CloseField(fields, false)
  {
    hide Fields, Split, FindHeadersEnd, IndexOf, StatusOf, LengthField, ChunkedField, CloseField;
  }

  lemma StatusLong(line: Bytes)
    requires StatusOf(line).Some?
    ensures |line| >= 12
  {
  }

  lemma StatusRead(line: Bytes, n: nat)
    requires |line| >= 12 && line[9..12] == Decimal(n) && n <= MAX_U16
    ensures StatusOf(line) == Some(n)
  {
    var s := Decimal(n);
    hide Utf8, ParseUnsigned, Trim, Decimal;
    AsciiIsUtf8(s);
    assert Around(s, s) by {
      assert s[0] in s && s[|s| - 1] in s;
      assert White(s[..0]) && s[0..|s|] == s && White(s[|s|..]);
    }
    TrimAround(s, s);
    assert Zeros(0) + s == s;
    NumberRead(s, 0, n, MAX_U16);
  }

  // ---------------------------------------------------------------- chunk sizes

  /** The digits of a size up to 128 MiB, in base 16 and letters of any case, are read as that
      size; a larger one is refused. */
  lemma HexSizeIs(digits: Bytes, n: nat, rest: Bytes)
    requires Lower(digits) == Hex(n)
    ensures ChunkSize(digits + "\r\n" + rest)
      == if n <= 134_217_728 then Ok(ChunkHead(n, |digits| + 2)) else Invalid
  {
    hide Value, IsDigits, Utf8, IndexOf, Trim, Split, Hex;
    HexValue(digits, n);
    HexAscii(digits);
    var line := digits + "\r";
    assert digits + "\r\n" + rest == line + ['\n'] + rest;
    IndexOfAfter(line, '\n', rest);
    SplitNone(digits, ';');
    AsciiIsUtf8(digits);
    assert Around(digits, digits) by {
      assert digits[0] in digits && digits[|digits| - 1] in digits;
      assert White(digits[..0]) && digits[0..|digits|] == digits && White(digits[|digits|..]);
    }
    TrimAround(digits, digits);
    assert digits[0] in digits;
    assert Trimmed(line) == digits;
  }

  lemma HexAscii(digits: Bytes)
    requires IsDigits(digits, 16)
    ensures Ascii(digits)
    ensures forall c | c in digits :: !Space(c) && c != '+' && c != ';' && c != '\n' && c != '\r'
  {
  }

  /** A size with a character that belongs in no number is refused. */
  lemma SizeRefused(core: Bytes, ext: Bytes, rest: Bytes, c: char)
    requires c in core && !Space(c) && c != '+' && DigitValue(c) >= 16
    requires ';' !in core && '\n' !in core && '\n' !in ext && (ext == "" || ext[0] == ';')
    requires !EndsWith(core + ext, "\r")
    ensures ChunkSize(core + ext + "\r\n" + rest) == Invalid
  {
    hide Value, Utf8, IndexOf, Trim, Split;
    var line := core + ext + "\r";
    assert core + ext + "\r\n" + rest == line + ['\n'] + rest;
    IndexOfAfter(line, '\n', rest);
    assert Trimmed(line) == core + ext;
    if ext == "" {
      assert core + ext == core;
      SplitNone(core, ';');
    } else {
      assert core + ext == core + [';'] + ext[1..];
      SplitCons(core, ';', ext[1..]);
    }
    TrimHas(core, c);
  }

  lemma TrimHas(s: Bytes, c: char)
    requires c in s && !Space(c)
    ensures c in Trim(s)
  {
    TrimStartHas(s, c);
    TrimEndHas(TrimStart(s), c);
  }

  lemma {:induction false} TrimStartHas(s: Bytes, c: char)
    requires c in s && !Space(c)
    ensures c in TrimStart(s)
  {
    if Space(s[0]) { TrimStartHas(s[1..], c); }
  }

  lemma {:induction false} TrimEndHas(s: Bytes, c: char)
    requires c in s && !Space(c)
    ensures c in TrimEnd(s)
  {
    if Space(s[|s| - 1]) { TrimEndHas(s[..|s| - 1], c); }
  }

  // ---------------------------------------------------------------- text encoding

  /** The numbers that stand for characters: up to 0x10FFFF, without the surrogates. */
  predicate Scalar(n: nat) { n < 0xD800 || 0xE000 <= n <= 0x10FFFF }

  function Byte(n: nat): char
    requires n < 256
  {
    n as char
  }

  /** One character in UTF-8; section 3 of RFC 3629. */
  function Encode(n: nat): (r: Bytes)
    requires Scalar(n)
    ensures r != ""
  {
    if n < 0x80 then [Byte(n)]
    else if n < 0x800 then [Byte(0xC0 + n / 64), Byte(0x80 + n % 64)]
    else if n < 0x10000 then [Byte(0xE0 + n / 64 / 64), Byte(0x80 + n / 64 % 64), Byte(0x80 + n % 64)]
    else [Byte(0xF0 + n / 64 / 64 / 64), Byte(0x80 + n / 64 / 64 % 64), Byte(0x80 + n / 64 % 64), Byte(0x80 + n % 64)]
  }

  function EncodeAll(ns: seq<nat>): Bytes
    requires forall n | n in ns :: Scalar(n)
  {
    if ns == [] then "" else Encode(ns[0]) + EncodeAll(ns[1..])
  }

  lemma Utf8Step(n: nat, rest: Bytes)
    requires Scalar(n)
    ensures Utf8(Encode(n) + rest) <==> Utf8(rest)
  {
    var e := Encode(n);
    var s := e + rest;
    assert s[0] == e[0] && s[|e|..] == rest;
    if n >= 0x80 { assert s[1] == e[1]; }
    if n >= 0x800 { assert s[2] == e[2]; }
    if n >= 0x10000 { assert s[3] == e[3]; }
  }

  lemma Sixes(high: nat, low: nat)
    requires low < 64
    ensures (high * 64 + low) / 64 == high && (high * 64 + low) % 64 == low
  {
  }

  lemma Two(a: char, b: char, n: nat)
    requires 0xC2 <= a as int <= 0xDF && Continuation(b)
    requires n == (a as int - 0xC0) * 64 + (b as int - 0x80)
    ensures Scalar(n) && Encode(n) == [a, b]
  {
  }

  lemma Three(a: char, b: char, c: char, n: nat)
    requires 0xE0 <= a as int <= 0xEF && Continuation(b) && Continuation(c)
    requires (a as int == 0xE0 ==> b as int >= 0xA0) && (a as int == 0xED ==> b as int <= 0x9F)
    requires n == (a as int - 0xE0) * 4096 + (b as int - 0x80) * 64 + (c as int - 0x80)
    ensures Scalar(n) && Encode(n) == [a, b, c]
  {
    var x, y, z := a as int - 0xE0, b as int - 0x80, c as int - 0x80;
    Sixes(x, y);
    Sixes(x * 64 + y, z);
    assert n == (x * 64 + y) * 64 + z;
  }

  lemma Four(a: char, b: char, c: char, d: char, n: nat)
    requires 0xF0 <= a as int <= 0xF4 && Continuation(b) && Continuation(c) && Continuation(d)
    requires (a as int == 0xF0 ==> b as int >= 0x90) && (a as int == 0xF4 ==> b as int <= 0x8F)
    requires n == (a as int - 0xF0) * 262144 + (b as int - 0x80) * 4096 + (c as int - 0x80) * 64 + (d as int - 0x80)
    ensures Scalar(n) && Encode(n) == [a, b, c, d]
  {
    var w, x, y, z := a as int - 0xF0, b as int - 0x80, c as int - 0x80, d as int - 0x80;
    Sixes(w, x);
    Sixes(w * 64 + x, y);
    Sixes((w * 64 + x) * 64 + y, z);
    assert n == ((w * 64 + x) * 64 + y) * 64 + z;
  }

  lemma FrontIs(s: Bytes, k: nat)
    requires 1 <= k <= 4 && k <= |s|
    ensures s[..k] <= s
    ensures k == 1 ==> s[..k] == [s[0]]
    ensures k == 2 ==> s[..k] == [s[0], s[1]]
    ensures k == 3 ==> s[..k] == [s[0], s[1], s[2]]
    ensures k == 4 ==> s[..k] == [s[0], s[1], s[2], s[3]]
  {
  }

  /** The first character of a text in UTF-8. */
  lemma Utf8Front(s: Bytes) returns (n: nat)
    requires s != "" && Utf8(s)
    ensures Scalar(n) && Encode(n) <= s && Utf8(s[|Encode(n)|..])
  {
    var a := s[0] as int;
    if a < 0x80 {
      n := a;
      FrontIs(s, 1);
      assert Encode(n) == [s[0]];
    } else if a <= 0xDF {
      n := (a - 0xC0) * 64 + (s[1] as int - 0x80);
      FrontIs(s, 2);
      hide Encode;
      Two(s[0], s[1], n);
    } else if a <= 0xEF {
      n := (a - 0xE0) * 4096 + (s[1] as int - 0x80) * 64 + (s[2] as int - 0x80);
      FrontIs(s, 3);
      hide Encode;
      Three(s[0], s[1], s[2], n);
    } else {
      n := (a - 0xF0) * 262144 + (s[1] as int - 0x80) * 4096 + (s[2] as int - 0x80) * 64 + (s[3] as int - 0x80);
      FrontIs(s, 4);
      hide Encode;
      Four(s[0], s[1], s[2], s[3], n);
    }
  }

  /** The check for UTF-8 accepts exactly the encodings of sequences of characters. */
  lemma {:induction false} Utf8Iff(s: Bytes)
    ensures Utf8(s) <==> exists ns: seq<nat> :: (forall n | n in ns :: Scalar(n)) && EncodeAll(ns) == s
    decreases |s|
  {
    hide Utf8, Encode, Scalar;
    if s == "" {
      Utf8Nothing();
      assert EncodeAll([]) == s;
    } else {
      if Utf8(s) {
        var n := Utf8Front(s);
        var rest := s[|Encode(n)|..];
        Utf8Iff(rest);
        var ns: seq<nat> :| (forall m | m in ns :: Scalar(m)) && EncodeAll(ns) == rest;
        assert ([n] + ns)[1..] == ns;
        assert EncodeAll([n] + ns) == s;
      }
      if ns: seq<nat> :| (forall n | n in ns :: Scalar(n)) && EncodeAll(ns) == s { EncodedIsUtf8(ns); }
    }
  }

  lemma Utf8Nothing()
    ensures Utf8("")
  {
  }

  lemma {:induction false} EncodedIsUtf8(ns: seq<nat>)
    requires forall n | n in ns :: Scalar(n)
    ensures Utf8(EncodeAll(ns))
  {
    hide Utf8, Encode, Scalar;
    if ns == [] {
      Utf8Nothing();
    } else {
      assert ns[0] in ns && forall n | n in ns[1..] :: n in ns;
      EncodedIsUtf8(ns[1..]);
      Utf8Step(ns[0], EncodeAll(ns[1..]));
    }
  }

  // ---------------------------------------------------------------- line ends

  /** What is cut off the end of a line: CR LF, or a single one of them. */
  lemma TrimmedIs(b: Bytes)
    ensures b == "" ==> Trimmed(b) == ""
    ensures b != "" ==>
      var n := |b| - 1;
      Trimmed(b) ==
        if b[n] == '\n' && n > 0 && b[n - 1] == '\r' then b[..n - 1]
        else if b[n] == '\n' || b[n] == '\r' then b[..n]
        else b
  {
  }
}
