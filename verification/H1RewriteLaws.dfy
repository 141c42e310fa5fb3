/** What the rewritten head says when it is parsed again. */
module H1RewriteLaws {
  import opened Text
  import opened Proto
  import opened H1Rewrite

  /** A header or request line that cannot be mistaken for the end of the head. */
  predicate Clean(line: Bytes) { line != "" && '\n' !in line }

  predicate AllClean(lines: seq<Bytes>) { forall l | l in lines :: Clean(l) }

  predicate AllHeaders(lines: seq<Bytes>) { forall l | l in lines :: Clean(l) && ':' in l }

  /** The fields of lines that all have a colon. */
  function LineFields(lines: seq<Bytes>): (r: seq<Field>)
    requires AllHeaders(lines)
    ensures |r| == |lines|
    ensures forall i | 0 <= i < |r| :: r[i] == FieldOf(lines[i])
  {
    seq(|lines|, i requires 0 <= i < |lines| => FieldOf(lines[i]))
  }

  /** The fields whose name is not skipped. */
  function Filter(fields: seq<Field>, skip: seq<Bytes>): seq<Field> {
    if fields == [] then []
    else (if Skipped(fields[0].name, skip) then [] else [fields[0]]) + Filter(fields[1..], skip)
  }

  // ---------------------------------------------------------------- lines on the wire

  lemma WireStep(lines: seq<Bytes>)
    requires lines != [] && AllClean(lines)
    ensures Clean(lines[0]) && AllClean(lines[1..])
    ensures Wire(lines) + "\r\n" == lines[0] + "\r\n" + (Wire(lines[1..]) + "\r\n")
    ensures Split(Wire(lines) + "\r\n", '\n') == [lines[0] + "\r"] + Split(Wire(lines[1..]) + "\r\n", '\n')
  {
    hide Split, IndexOf;
    assert lines[0] in lines;
    assert forall l | l in lines[1..] :: l in lines;
    var w := Wire(lines[1..]) + "\r\n";
    Assoc(lines[0] + "\r\n", Wire(lines[1..]), "\r\n");
    assert lines[0] + "\r\n" + w == lines[0] + "\r" + ['\n'] + w;
    SplitCons(lines[0] + "\r", '\n', w);
  }

  /** Clean lines hold no blank line before the end. */
  lemma {:induction false} NoBlankInside(lines: seq<Bytes>, e: nat)
    requires AllClean(lines) && e < |Wire(lines) + "\r\n"|
    ensures !BlankLineEndsAt(Wire(lines) + "\r\n", e)
  {
    hide Wire, Split;
    if lines == [] {
      WireNone();
    } else {
      WireStep(lines);
      FirstBytes(lines[1..]);
      var l, w := lines[0], Wire(lines[1..]) + "\r\n";
      if e >= |l| + 2 { NoBlankInside(lines[1..], e - |l| - 2); }
      if BlankLineEndsAt(l + "\r\n" + w, e) { BlankAcross(l, w, e); }
    }
  }

  lemma WireNone()
    ensures Wire([]) == ""
  {
  }

  /** A blank line in `l CR LF w` either lies in `w` or says that `w` starts with CR LF. */
  lemma BlankAcross(l: Bytes, w: Bytes, e: nat)
    requires '\n' !in l && l != "" && BlankLineEndsAt(l + "\r\n" + w, e)
    ensures e >= |l| + 4
    ensures BlankLineEndsAt(w, e - |l| - 2) || (e == |l| + 4 && w[0] == '\r' && w[1] == '\n')
  {
    var out := l + "\r\n" + w;
    assert forall i | 0 <= i < |l| :: out[i] == l[i] && l[i] in l;
    assert out[|l| + 1] == '\n';
  }

  /** Only the end of the head starts with CR LF. */
  lemma FirstBytes(lines: seq<Bytes>)
    requires AllClean(lines)
    ensures var w := Wire(lines) + "\r\n";
      |w| >= 2 && (lines == [] <==> w[0] == '\r' && w[1] == '\n') && (lines == [] ==> |w| == 2)
  {
    if lines != [] {
      WireStep(lines);
      assert lines[0][0] in lines[0];
      if |lines[0]| > 1 { assert lines[0][1] in lines[0]; }
    }
  }

  lemma {:induction false} WireEnds(lines: seq<Bytes>)
    requires lines != []
    ensures EndsWith(Wire(lines), "\r\n")
  {
    if |lines| == 1 {
      assert Wire(lines[1..]) == "";
      assert Wire(lines) == lines[0] + "\r\n";
    } else {
      WireEnds(lines[1..]);
    }
  }

  /** The head of clean lines ends where the output ends. */
  lemma WireHeadEnd(lines: seq<Bytes>)
    requires lines != [] && AllClean(lines)
    ensures FindHeadersEnd(Wire(lines) + "\r\n") == Some(|Wire(lines)| + 2)
  {
    hide Wire, FindHeadersEnd;
    WireEnds(lines);
    var w, out := Wire(lines), Wire(lines) + "\r\n";
    assert w[|w| - 2..][0] == '\r' && w[|w| - 2..][1] == '\n';
    forall k | 0 <= k < |out| ensures !BlankLineEndsAt(out, k) { NoBlankInside(lines, k); }
    FindHeadersEndUnique(out, |out|);
  }

  lemma TrimmedCr(line: Bytes)
    requires Clean(line)
    ensures Trimmed(line + "\r") == line
  {
  }

  /** Parsing header lines from the wire gives their fields. */
  lemma {:induction false} FieldsOfWire(lines: seq<Bytes>)
    requires AllHeaders(lines)
    ensures Fields(Split(Wire(lines) + "\r\n", '\n')) == Some(LineFields(lines))
  {
    hide Wire, Split, Fields, Trimmed, FieldOf, IndexOf;
    if lines == [] {
      FieldsOfBlank();
    } else {
      WireStep(lines);
      var head, tail := lines[0], lines[1..];
      HeadersTail(lines);
      FieldsOfWire(tail);
      TrimmedCr(head);
      FieldsCons(head + "\r", Split(Wire(tail) + "\r\n", '\n'));
      assert LineFields(lines) == [FieldOf(head)] + LineFields(tail);
    }
  }

  lemma HeadersTail(lines: seq<Bytes>)
    requires AllHeaders(lines) && lines != []
    ensures AllClean(lines) && AllHeaders(lines[1..]) && Clean(lines[0]) && ':' in lines[0]
  {
    assert lines[0] in lines;
    assert forall l | l in lines[1..] :: l in lines;
  }

  lemma FieldsOfBlank()
    ensures Fields(Split(Wire([]) + "\r\n", '\n')) == Some([])
  {
    SplitCons("\r", '\n', "");
    assert "\r" + ['\n'] + "" == "\r\n" == Wire([]) + "\r\n";
  }

  lemma FieldsCons(line: Bytes, rest: seq<Bytes>)
    requires ':' in Trimmed(line)
    ensures Fields(rest).Some? ==> Fields([line] + rest) == Some([FieldOf(Trimmed(line))] + Fields(rest).value)
  {
    assert ([line] + rest)[1..] == rest;
  }

  // ---------------------------------------------------------------- lines passed on

  lemma StripIsTrim(line: Bytes)
    requires '\n' !in line
    ensures Trimmed(line) == StripCr(line) && '\n' !in StripCr(line)
  {
  }

  /** The lines passed on are headers, and their fields are the received fields without the
      skipped ones, in the same order. */
  lemma {:induction false} KeptFields(lines: seq<Bytes>, skip: seq<Bytes>)
    requires (forall l | l in lines :: '\n' !in l) && Fields(lines).Some?
    ensures AllHeaders(Kept(lines, skip))
    ensures LineFields(Kept(lines, skip)) == Filter(Fields(lines).value, skip)
  {
    hide Fields, StripCr, Trimmed, Skipped, FieldOf, Keeps, Filter, Kept, IndexOf;
    if lines == [] || StripCr(lines[0]) == "" {
      if lines != [] { StripIsTrim(lines[0]); }
      NothingKept(lines, skip);
    } else {
      StripIsTrim(lines[0]);
      var line, tail := StripCr(lines[0]), lines[1..];
      assert forall l | l in tail :: l in lines;
      FieldsUncons(lines);
      KeptFields(tail, skip);
      KeptUncons(lines, skip);
      KeepsIff(line, skip);
      var rest := Fields(tail).value;
      FilterCons(FieldOf(line), rest, skip);
      assert Keeps(line, skip) ==>
        LineFields([line] + Kept(tail, skip)) == [FieldOf(line)] + LineFields(Kept(tail, skip));
      assert [] + Kept(tail, skip) == Kept(tail, skip);
    }
  }

  lemma NothingKept(lines: seq<Bytes>, skip: seq<Bytes>)
    requires lines == [] || (StripCr(lines[0]) == "" && Trimmed(lines[0]) == "")
    ensures Kept(lines, skip) == [] && Fields(lines) == Some([]) && Filter([], skip) == []
  {
  }

  lemma FieldsUncons(lines: seq<Bytes>)
    requires lines != [] && Trimmed(lines[0]) != "" && Fields(lines).Some?
    ensures ':' in Trimmed(lines[0]) && Fields(lines[1..]).Some?
    ensures Fields(lines).value == [FieldOf(Trimmed(lines[0]))] + Fields(lines[1..]).value
  {
  }

  lemma KeptUncons(lines: seq<Bytes>, skip: seq<Bytes>)
    requires lines != [] && StripCr(lines[0]) != ""
    ensures Kept(lines, skip)
      == (if Keeps(StripCr(lines[0]), skip) then [StripCr(lines[0])] else []) + Kept(lines[1..], skip)
  {
  }

  lemma KeepsIff(line: Bytes, skip: seq<Bytes>)
    requires ':' in line
    ensures Keeps(line, skip) <==> !Skipped(FieldOf(line).name, skip)
  {
  }

  lemma FilterCons(f: Field, rest: seq<Field>, skip: seq<Bytes>)
    ensures Filter([f] + rest, skip) == (if Skipped(f.name, skip) then [] else [f]) + Filter(rest, skip)
  {
    assert ([f] + rest)[1..] == rest;
  }

  // ---------------------------------------------------------------- last field of a name

  lemma {:induction false} LastConcat(a: seq<Field>, b: seq<Field>, name: Bytes)
    ensures Last(a + b, name) == if Last(b, name).Some? then Last(b, name) else Last(a, name)
  {
    hide Last;
    if b == [] {
      LastNone(name);
      assert a + b == a;
    } else {
      var n := |b| - 1;
      LastConcat(a, b[..n], name);
      LastAppend(b[..n], b[n], name);
      LastAppend(a + b[..n], b[n], name);
      Assoc(a, b[..n], [b[n]]);
      assert b == b[..n] + [b[n]];
    }
  }

  /** Skipping removes a name altogether and does not touch the others. */
  lemma {:induction false} LastFilter(fields: seq<Field>, skip: seq<Bytes>, name: Bytes)
    ensures Last(Filter(fields, skip), name) == if name in skip then None else Last(fields, name)
  {
    hide Last, Filter;
    LastNone(name);
    if fields == [] {
      FilterNone(skip);
    } else {
      var f, rest := fields[0], fields[1..];
      LastFilter(rest, skip, name);
      FilterCons(f, rest, skip);
      LastConcat([f], rest, name);
      LastConcat(if Skipped(f.name, skip) then [] else [f], Filter(rest, skip), name);
      assert fields == [f] + rest;
      LastOne(f, name);
    }
  }

  lemma FilterNone(skip: seq<Bytes>)
    ensures Filter([], skip) == []
  {
  }

  lemma LastOne(f: Field, name: Bytes)
    ensures Last([f], name) == if EqIc(f.name, name) then Some(f.value) else None
  {
    assert [f][..0] == [];
  }

  lemma LastNone(name: Bytes)
    ensures Last([], name) == None
  {
  }

  // ---------------------------------------------------------------- configured headers

  /** The names that decide where a request goes and how long it is. */
  predicate FramingName(name: Bytes) {
    || name == "host" || name == "connection" || name == "content-length"
    || name == "transfer-encoding" || name == "upgrade" || name == "expect"
  }

  /** A configuration that leaves framing alone: no line feed in anything it inserts, no
      framing header set in any letter case, and the two that are passed on not removed. */
  predicate GoodRules(rules: Rules) {
    && GoodText(rules)
    && (forall i | 0 <= i < |rules.setRequest| :: GoodPair(rules.setRequest[i].0, rules.setRequest[i].1))
    && "content-length" !in rules.removeRequest && "expect" !in rules.removeRequest
  }

  predicate GoodPair(key: Bytes, value: Bytes) { TextPair(key, value) && !FramingName(Lower(key)) }

  /** No line feed in anything the configuration inserts, and no colon in a name. */
  predicate GoodText(rules: Rules) {
    && '\n' !in rules.domain
    && forall i | 0 <= i < |rules.setRequest| :: TextPair(rules.setRequest[i].0, rules.setRequest[i].1)
  }

  predicate TextPair(key: Bytes, value: Bytes) { ':' !in key && '\n' !in key && '\n' !in value }

  predicate Harmless(line: Bytes) {
    Clean(line) && ':' in line && !FramingName(Lower(FieldOf(line).name))
  }

  /** A header line is read back as the name and value it was written with. */
  lemma HeaderLineField(name: Bytes, value: Bytes)
    requires ':' !in name && '\n' !in name && '\n' !in value
    ensures Clean(HeaderLine(name, value)) && ':' in HeaderLine(name, value)
    ensures FieldOf(HeaderLine(name, value)) == Field(name, LeftTrimmed(value))
  {
    hide IndexOf, LeftTrimmed, HeaderLine;
    var rest := " " + value;
    HeaderLineJoin(name, value);
    IndexOfAfter(name, ':', rest);
    SpaceTrimmed(value);
    assert HeaderLine(name, value)[|name|] == ':';
  }

  lemma HeaderLineJoin(name: Bytes, value: Bytes)
    ensures HeaderLine(name, value) == name + [':'] + (" " + value)
  {
  }

  lemma SpaceTrimmed(value: Bytes)
    ensures LeftTrimmed(" " + value) == LeftTrimmed(value)
  {
    assert (" " + value)[1..] == value;
  }

  lemma PairHarmless(name: Bytes, value: Bytes)
    requires GoodPair(name, value)
    ensures Harmless(HeaderLine(name, value))
  {
    HeaderLineField(name, value);
  }

  lemma AddedHarmless(raw: Bytes, rules: Rules, ip: Bytes)
    requires GoodRules(rules) && '\n' !in ip
    ensures forall l | l in AddedLines(raw, rules, ip) :: Harmless(l)
  {
    hide Harmless, HeaderLine, GoodPair, HasForwarded;
    forall l | l in SetLines(rules.setRequest) ensures Harmless(l) {
      var i :| 0 <= i < |rules.setRequest| && SetLines(rules.setRequest)[i] == l;
      PairHarmless(rules.setRequest[i].0, rules.setRequest[i].1);
    }
    AddedNamesGood(ip);
    PairHarmless("x-real-ip", ip);
    PairHarmless("x-forwarded-for", ip);
    PairHarmless("x-forwarded-proto", "https");
  }

  lemma OneField(x: Bytes)
    requires Clean(x) && ':' in x
    ensures AllHeaders([x]) && LineFields([x]) == [FieldOf(x)]
  {
    hide FieldOf;
  }

  /** A line that may be missing. */
  lemma OptionalLine(there: bool, name: Bytes, value: Bytes)
    requires TextPair(name, value)
    ensures AllHeaders(if there then [HeaderLine(name, value)] else [])
    ensures LineFields(if there then [HeaderLine(name, value)] else [])
      == if there then [Field(name, LeftTrimmed(value))] else []
  {
    hide HeaderLine, FieldOf, LeftTrimmed, Clean;
    HeaderLineField(name, value);
    OneField(HeaderLine(name, value));
  }

  lemma SetHeaders(set_: seq<(Bytes, Bytes)>)
    requires forall i | 0 <= i < |set_| :: TextPair(set_[i].0, set_[i].1)
    ensures AllHeaders(SetLines(set_))
  {
    hide HeaderLine, FieldOf, LeftTrimmed, Clean;
    var lines := SetLines(set_);
    forall i | 0 <= i < |lines| ensures Clean(lines[i]) && ':' in lines[i] { HeaderLineField(set_[i].0, set_[i].1); }
  }

  lemma AddedHeaders(raw: Bytes, rules: Rules, ip: Bytes)
    requires GoodText(rules) && '\n' !in ip
    ensures AllHeaders(AddedLines(raw, rules, ip))
  {
    hide HeaderLine, AddsForwarded, rules.Sets, LineFields, SetLines, AllHeaders, LeftTrimmed;
    SetHeaders(rules.setRequest);
    OptionalLine(!rules.Sets("x-real-ip"), "x-real-ip", ip);
    OptionalLine(AddsForwarded(raw, rules), "x-forwarded-for", ip);
    OptionalLine(!rules.Sets("x-forwarded-proto"), "x-forwarded-proto", "https");
    var a := SetLines(rules.setRequest);
    var b := if rules.Sets("x-real-ip") then [] else [HeaderLine("x-real-ip", ip)];
    var c := if AddsForwarded(raw, rules) then [HeaderLine("x-forwarded-for", ip)] else [];
    var d := if rules.Sets("x-forwarded-proto") then [] else [HeaderLine("x-forwarded-proto", "https")];
    LineFieldsConcat(a, b);
    LineFieldsConcat(a + b, c);
    LineFieldsConcat(a + b + c, d);
  }

  lemma GoodIsText(rules: Rules)
    requires GoodRules(rules)
    ensures GoodText(rules)
  {
  }

  lemma AddedNamesGood(ip: Bytes)
    requires '\n' !in ip
    ensures GoodPair("x-real-ip", ip) && GoodPair("x-forwarded-for", ip) && GoodPair("x-forwarded-proto", "https")
  {
    assert Lower("x-real-ip")[0] == 'x' && Lower("x-forwarded-for")[0] == 'x' && Lower("x-forwarded-proto")[0] == 'x';
  }

  lemma HarmlessFields(lines: seq<Bytes>, name: Bytes)
    requires (forall l | l in lines :: Harmless(l)) && FramingName(name)
    ensures AllHeaders(lines) && Last(LineFields(lines), name) == None
  {
    hide Last, FramingName;
    assert AllHeaders(lines);
    var fields := LineFields(lines);
    forall i | 0 <= i < |fields| ensures !EqIc(fields[i].name, name) { assert lines[i] in lines; }
  }

  lemma LineFieldsConcat(a: seq<Bytes>, b: seq<Bytes>)
    requires AllHeaders(a) && AllHeaders(b)
    ensures AllHeaders(a + b) && LineFields(a + b) == LineFields(a) + LineFields(b)
  {
  }

  // ---------------------------------------------------------------- the rewritten head

  /** The header fields a rewritten head is made of: host and connection, what the
      configuration adds, and what it lets through. */
  function FirstFields(rules: Rules, keepAlive: bool): seq<Field> {
    [Field("host", LeftTrimmed(rules.domain)), Field("connection", if keepAlive then "keep-alive" else "close")]
  }

  lemma FirstLines(rules: Rules, keepAlive: bool)
    requires '\n' !in rules.domain
    ensures AllHeaders([HeaderLine("host", rules.domain), ConnectionLine(keepAlive)])
    ensures LineFields([HeaderLine("host", rules.domain), ConnectionLine(keepAlive)]) == FirstFields(rules, keepAlive)
  {
    hide HeaderLine, FieldOf, LeftTrimmed, LineFields, AllHeaders;
    var value := if keepAlive then "keep-alive" else "close";
    HeaderLineField("host", rules.domain);
    HeaderLineField("connection", value);
    ConnectionTrimmed(keepAlive);
    TwoFields(HeaderLine("host", rules.domain), ConnectionLine(keepAlive));
  }

  lemma TwoFields(x: Bytes, y: Bytes)
    requires Clean(x) && ':' in x && Clean(y) && ':' in y
    ensures AllHeaders([x, y]) && LineFields([x, y]) == [FieldOf(x), FieldOf(y)]
  {
    hide FieldOf;
  }

  lemma ConnectionTrimmed(keepAlive: bool)
    ensures var value := if keepAlive then "keep-alive" else "close"; LeftTrimmed(value) == value
  {
  }

  /** After the request line, the rewritten head holds exactly the two fixed fields, the added
      ones, and the received fields that are not skipped, in this order. */
  lemma RewrittenFields(raw: Bytes, rules: Rules, ip: Bytes, keepAlive: bool)
    requires GoodText(rules) && '\n' !in ip
    requires Fields(Split(raw, '\n')[1..]).Some?
    ensures AllHeaders(HeaderLines(raw, rules, ip, keepAlive)) && AllHeaders(AddedLines(raw, rules, ip))
    ensures LineFields(HeaderLines(raw, rules, ip, keepAlive))
      == FirstFields(rules, keepAlive) + LineFields(AddedLines(raw, rules, ip))
           + Filter(Fields(Split(raw, '\n')[1..]).value, SkipList(raw, rules))
  {
    hide HeaderLine, ConnectionLine, FirstFields, AddedLines, Kept, SkipList;
    hide Fields, Filter, Split, LineFields;
    var received := Split(raw, '\n')[1..];
    var added, skip := AddedLines(raw, rules, ip), SkipList(raw, rules);
    FirstLines(rules, keepAlive);
    AddedHeaders(raw, rules, ip);
    assert forall l | l in received :: l in Split(raw, '\n');
    KeptFields(received, skip);
    var first := [HeaderLine("host", rules.domain), ConnectionLine(keepAlive)];
    LineFieldsConcat(first, added);
    LineFieldsConcat(first + added, Kept(received, skip));
  }

  lemma FixedSkips()
    ensures "host" in FIXED_SKIP && "connection" in FIXED_SKIP
    ensures "transfer-encoding" in FIXED_SKIP && "upgrade" in FIXED_SKIP
    ensures "content-length" !in FIXED_SKIP && "expect" !in FIXED_SKIP
  {
    var s := FIXED_SKIP;
    assert s[0] == "host" && s[1] == "connection" && s[3] == "transfer-encoding" && s[4] == "upgrade";
  }

  lemma KeysSkip(rules: Rules, name: Bytes)
    requires GoodRules(rules) && FramingName(name) && Lower(name) == name
    ensures name !in Keys(rules.setRequest)
  {
    hide Lower, FramingName;
    forall k | k in Keys(rules.setRequest) ensures k != name {
      var i :| 0 <= i < |rules.setRequest| && rules.setRequest[i].0 == k;
      assert GoodPair(k, rules.setRequest[i].1);
    }
  }

  lemma LowerNames()
    ensures Lower("content-length") == "content-length" && Lower("expect") == "expect"
    ensures Lower("host") == "host" && Lower("connection") == "connection"
  {
  }

  lemma SkipsFraming(raw: Bytes, rules: Rules)
    requires GoodRules(rules)
    ensures var skip := SkipList(raw, rules);
      && "host" in skip && "connection" in skip && "transfer-encoding" in skip && "upgrade" in skip
      && "content-length" !in skip && "expect" !in skip
  {
    FixedSkips();
    LowerNames();
    KeysSkip(rules, "content-length");
    KeysSkip(rules, "expect");
    hide HasForwarded, FIXED_SKIP, Keys, Lower;
  }

  /** The last field of each framing name, before and after. */
  lemma LastOfRewritten(raw: Bytes, rules: Rules, keepAlive: bool, added: seq<Bytes>, received: seq<Field>, name: Bytes)
    requires GoodRules(rules) && FramingName(name)
    requires forall l | l in added :: Harmless(l)
    ensures AllHeaders(added)
    ensures var skip := SkipList(raw, rules);
      Last(FirstFields(rules, keepAlive) + LineFields(added) + Filter(received, skip), name)
      == if name in skip || Last(received, name).None? then Last(FirstFields(rules, keepAlive), name)
         else Last(received, name)
  {
    hide Last, Filter, FirstFields, SkipList, GoodRules, Harmless, FramingName;
    var skip := SkipList(raw, rules);
    HarmlessFields(added, name);
    LastConcat(FirstFields(rules, keepAlive), LineFields(added), name);
    LastConcat(FirstFields(rules, keepAlive) + LineFields(added), Filter(received, skip), name);
    LastFilter(received, skip, name);
  }

  lemma LastOfFirst(rules: Rules, keepAlive: bool, name: Bytes)
    ensures Last(FirstFields(rules, keepAlive), name) ==
      if name == "host" then Some(LeftTrimmed(rules.domain))
      else if name == "connection" then Some(if keepAlive then "keep-alive" else "close")
      else None
  {
    hide Last, LeftTrimmed, Lower;
    LowerNames();
    var fields := FirstFields(rules, keepAlive);
    LastOne(fields[0], name);
    LastAppend([fields[0]], fields[1], name);
    assert fields == [fields[0]] + [fields[1]];
  }

  lemma ConnectionValue()
    ensures ContainsIc("close", "close") && !ContainsIc("keep-alive", "close")
  {
    assert "close"[0..5] == "close" && Lower("close") == "close";
    assert IcAt("close", 0, "close");
    var s := "keep-alive";
    forall i: nat | i <= |s| ensures !IcAt(s, i, "close") {
      if i + 5 <= |s| { assert Lower(s[i..i + 5])[0] == LowerChar(s[i]); }
    }
  }

  lemma MethodBytes(raw: Bytes)
    requires RequestFast(raw).Ok? && RequestFast(raw).value.headersEnd == |raw|
    ensures Split(Split(raw, '\n')[0], ' ')[0] == MethodName(RequestFast(raw).value.method_)
    ensures Fields(Split(raw, '\n')[1..]).Some?
    ensures RequestFast(raw).value.contentLength == LengthField(Fields(Split(raw, '\n')[1..]).value)
    ensures RequestFast(raw).value.expectContinue == ExpectField(Fields(Split(raw, '\n')[1..]).value)
  {
    hide HeadOf, FindHeadersEnd, LengthField, ExpectField, Split, Fields;
    assert raw[..|raw|] == raw;
    HeadParts(raw);
  }

  lemma HeadParts(head: Bytes)
    requires HeadOf(head).Ok?
    ensures Split(Split(head, '\n')[0], ' ')[0] == MethodName(HeadOf(head).value.method_)
    ensures Fields(Split(head, '\n')[1..]).Some?
    ensures HeadOf(head).value.contentLength == LengthField(Fields(Split(head, '\n')[1..]).value)
    ensures HeadOf(head).value.expectContinue == ExpectField(Fields(Split(head, '\n')[1..]).value)
  {
    hide Fields, Trimmed, HostField, LengthField, ChunkedField, CloseField;
    hide UpgradeField, ExpectField, Split, RequestLineOf;
    MethodOfLine(Split(head, '\n')[0]);
  }

  /** The line before trimming starts with the same method. */
  lemma MethodOfLine(line: Bytes)
    requires RequestLineOf(Trimmed(line)).Some?
    ensures Split(line, ' ')[0] == MethodName(RequestLineOf(Trimmed(line)).value.method_)
  {
    hide Trimmed, Utf8, IndexOf, MethodName, MethodOf, EndsWith;
    var t := Trimmed(line);
    var sp := IndexOf(t, ' ');
    assert line == t + line[|t|..];
    IndexOfStable(t, ' ', line[|t|..]);
    TakeOfAppend(t, line[|t|..], 0, sp);
  }

  lemma RequestLineBack(m: Method, path: Bytes)
    requires Utf8(path) && ' ' !in path
    ensures var p := if '\r' in path || '\n' in path then "/" else path;
      && Clean(RequestLineFor(MethodName(m), path))
      && RequestLineOf(RequestLineFor(MethodName(m), path)) == Some(RequestLine(m, p, 1))
  {
    hide Utf8, EndsWith, RequestLineOf, MethodName, MethodOf, RequestLineFor;
    var p := if '\r' in path || '\n' in path then "/" else path;
    SlashUtf8();
    RequestLineJoin(MethodName(m), path);
    MethodNameBack(m);
    RequestLineParts(MethodName(m), p, "HTTP/1.1");
    assert '\n' !in p;
  }

  lemma RequestLineParts(name: Bytes, path: Bytes, version: Bytes)
    requires ' ' !in name && ' ' !in path && Utf8(path) && MethodOf(name).Some?
    ensures RequestLineOf(name + [' '] + (path + [' '] + version))
      == Some(RequestLine(MethodOf(name).value, path, if EndsWith(version, "1.0") then 0 else 1))
  {
    hide Utf8, EndsWith, IndexOf, MethodOf;
    IndexOfAfter(name, ' ', path + [' '] + version);
    IndexOfAfter(path, ' ', version);
  }

  lemma MethodNameBack(m: Method)
    ensures MethodOf(MethodName(m)) == Some(m)
  {
  }

  lemma RequestLineJoin(name: Bytes, path: Bytes)
    ensures name != "" ==> RequestLineFor(name, path) != ""
    ensures var p := if '\r' in path || '\n' in path then "/" else path;
      RequestLineFor(name, path) == name + [' '] + (p + [' '] + "HTTP/1.1")
  {
  }

  lemma SlashUtf8()
    ensures Utf8("/") && !EndsWith("HTTP/1.1", "1.0")
  {
    assert "/"[1..] == "";
    assert "HTTP/1.1"[5..][2] == '1' && "1.0"[2] == '0';
  }

  /** Parsing what was written: for every head the fast parser accepts, every path without a
      space and every configuration that leaves framing alone, the rewritten head is accepted as
      a whole, with the method, body length and expectation of the original, the path unless it
      holds a line break, and host and connection as configured. */
  lemma RewriteRoundTrip(raw: Bytes, path: Bytes, rules: Rules, ip: Bytes, keepAlive: bool)
    requires RequestFast(raw).Ok? && RequestFast(raw).value.headersEnd == |raw|
    requires GoodRules(rules) && '\n' !in ip
    requires Utf8(path) && ' ' !in path
    ensures var req := RequestFast(raw).value;
      var out := Rewritten(raw, path, rules, ip, keepAlive);
      RequestFast(out) == Ok(Request(
        req.method_, if '\r' in path || '\n' in path then "/" else path, 1,
        HostOf(LeftTrimmed(rules.domain)), req.contentLength, false, !keepAlive, None,
        req.expectContinue, |out|))
  {
    hide Wire, Split, Fields, RequestLineOf, MethodName, RequestLineFor, HeaderLines, LineFields, GoodRules;
    hide HostField, LengthField, ChunkedField, CloseField, UpgradeField, ExpectField, AllHeaders, RequestFast, HostOf;
    hide Utf8, LeftTrimmed, Clean;
    var req := RequestFast(raw).value;
    MethodBytes(raw);
    RequestLineBack(req.method_, path);
    RewrittenFraming(raw, rules, ip, keepAlive);
    var headers := HeaderLines(raw, rules, ip, keepAlive);
    HeadOfWire(RequestLineFor(MethodName(req.method_), path), headers, LineFields(headers));
  }

  /** What the header lines of the rewritten head say about framing. */
  lemma RewrittenFraming(raw: Bytes, rules: Rules, ip: Bytes, keepAlive: bool)
    requires GoodRules(rules) && '\n' !in ip
    requires Fields(Split(raw, '\n')[1..]).Some?
    ensures AllHeaders(HeaderLines(raw, rules, ip, keepAlive))
    ensures var fields := LineFields(HeaderLines(raw, rules, ip, keepAlive));
      var received := Fields(Split(raw, '\n')[1..]).value;
      && HostField(fields) == HostOf(LeftTrimmed(rules.domain)) && LengthField(fields) == LengthField(received)
      && !ChunkedField(fields) && CloseField(fields, false) == !keepAlive && UpgradeField(fields) == None
      && ExpectField(fields) == ExpectField(received)
  {
    hide Fields, Split, HeaderLines, AddedLines, LineFields, GoodRules;
    hide Harmless, AllHeaders, SkipList, Filter, FirstFields;
    hide HostField, LengthField, ChunkedField, CloseField, UpgradeField, ExpectField, HostOf, LeftTrimmed;
    GoodIsText(rules);
    RewrittenFields(raw, rules, ip, keepAlive);
    AddedHarmless(raw, rules, ip);
    FramingOfRewritten(raw, rules, keepAlive, AddedLines(raw, rules, ip), Fields(Split(raw, '\n')[1..]).value);
  }

  /** A request line and header lines on the wire, read back. */
  lemma HeadOfWire(rl: Bytes, headers: seq<Bytes>, fields: seq<Field>)
    requires Clean(rl) && RequestLineOf(rl).Some? && AllHeaders(headers) && fields == LineFields(headers)
    ensures var out := Wire([rl] + headers) + "\r\n";
      RequestFast(out) == Ok(RequestOf(RequestLineOf(rl).value, fields, |out|))
  {
    hide Wire, Split, Fields, Trimmed, FindHeadersEnd, RequestLineOf, RequestOf, LineFields;
    var all := [rl] + headers;
    var out := Wire(all) + "\r\n";
    assert all[1..] == headers && all[0] == rl;
    assert AllClean(all);
    WireHeadEnd(all);
    assert out[..|out|] == out;
    WireStep(all);
    FieldsOfWire(headers);
    TrimmedCr(rl);
    var rest := Split(Wire(headers) + "\r\n", '\n');
    assert ([rl + "\r"] + rest)[0] == rl + "\r" && ([rl + "\r"] + rest)[1..] == rest;
  }

  /** Host and connection are the configured ones; length and expectation are the received
      ones; transfer-encoding and upgrade are gone. */
  lemma FramingOfRewritten(raw: Bytes, rules: Rules, keepAlive: bool, added: seq<Bytes>, received: seq<Field>)
    requires GoodRules(rules) && (forall l | l in added :: Harmless(l))
    ensures AllHeaders(added)
    ensures var fields := FirstFields(rules, keepAlive) + LineFields(added) + Filter(received, SkipList(raw, rules));
      && HostField(fields) == HostOf(LeftTrimmed(rules.domain)) && LengthField(fields) == LengthField(received)
      && !ChunkedField(fields) && CloseField(fields, false) == !keepAlive && UpgradeField(fields) == None
      && ExpectField(fields) == ExpectField(received)
  {
    hide Last, Filter, FirstFields, SkipList, GoodRules, Harmless;
    hide LineFields, HostOf, LengthOf, ContainsIc, LeftTrimmed;
    SkipsFraming(raw, rules);
    LastOfRewritten(raw, rules, keepAlive, added, received, "host");
    LastOfFirst(rules, keepAlive, "host");
    LastOfRewritten(raw, rules, keepAlive, added, received, "connection");
    LastOfFirst(rules, keepAlive, "connection");
    LastOfRewritten(raw, rules, keepAlive, added, received, "content-length");
    LastOfFirst(rules, keepAlive, "content-length");
    LastOfRewritten(raw, rules, keepAlive, added, received, "transfer-encoding");
    LastOfFirst(rules, keepAlive, "transfer-encoding");
    LastOfRewritten(raw, rules, keepAlive, added, received, "upgrade");
    LastOfFirst(rules, keepAlive, "upgrade");
    LastOfRewritten(raw, rules, keepAlive, added, received, "expect");
    LastOfFirst(rules, keepAlive, "expect");
    ConnectionValue();
  }
}
