/** Which header lines reach the upstream: what the configuration sets and removes, what the proxy
    writes itself, and that everything else arrives as it was received. */
module H1HeaderLaws {
  import opened Text
  import opened Proto
  import opened ProtoLaws
  import opened H1Rewrite
  import opened H1RewriteLaws

  /** The fields with this name, in any case. */
  function Named(fields: seq<Field>, name: Bytes): seq<Field> {
    if fields == [] then []
    else (if Lower(fields[0].name) == name then [fields[0]] else []) + Named(fields[1..], name)
  }

  /** The fields with none of these names. */
  function Unnamed(fields: seq<Field>, names: set<Bytes>): seq<Field> {
    if fields == [] then []
    else (if Lower(fields[0].name) in names then [] else [fields[0]]) + Unnamed(fields[1..], names)
  }

  lemma {:induction false} NamedConcat(a: seq<Field>, b: seq<Field>, name: Bytes)
    ensures Named(a + b, name) == Named(a, name) + Named(b, name)
  {
    if a == [] {
      assert a + b == b;
    } else {
      assert (a + b)[1..] == a[1..] + b;
      NamedConcat(a[1..], b, name);
    }
  }

  lemma {:induction false} UnnamedConcat(a: seq<Field>, b: seq<Field>, names: set<Bytes>)
    ensures Unnamed(a + b, names) == Unnamed(a, names) + Unnamed(b, names)
  {
    if a == [] {
      assert a + b == b;
    } else {
      assert (a + b)[1..] == a[1..] + b;
      UnnamedConcat(a[1..], b, names);
    }
  }

  lemma SkippedMeans(name: Bytes, skip: seq<Bytes>)
    ensures Skipped(name, skip) <==> Lower(name) in skip
  {
    if Lower(name) in skip {
      var i :| 0 <= i < |skip| && skip[i] == Lower(name);
      assert EqIc(name, skip[i]);
    }
  }

  /** Filtering takes all fields of a name or none. */
  lemma {:induction false} NamedFilter(fields: seq<Field>, skip: seq<Bytes>, name: Bytes)
    ensures Named(Filter(fields, skip), name) == if name in skip then [] else Named(fields, name)
  {
    if fields != [] {
      SkippedMeans(fields[0].name, skip);
      hide Skipped, Lower;
      NamedFilter(fields[1..], skip, name);
      var front := if Skipped(fields[0].name, skip) then [] else [fields[0]];
      NamedConcat(front, Filter(fields[1..], skip), name);
    }
  }

  lemma {:induction false} UnnamedFilter(fields: seq<Field>, skip: seq<Bytes>, names: set<Bytes>)
    requires forall n | n in skip :: n in names
    ensures Unnamed(Filter(fields, skip), names) == Unnamed(fields, names)
  {
    if fields != [] {
      SkippedMeans(fields[0].name, skip);
      hide Skipped, Lower;
      UnnamedFilter(fields[1..], skip, names);
      var front := if Skipped(fields[0].name, skip) then [] else [fields[0]];
      UnnamedConcat(front, Filter(fields[1..], skip), names);
    }
  }

  lemma {:induction false} NothingUnnamed(fields: seq<Field>, names: set<Bytes>)
    requires forall f | f in fields :: Lower(f.name) in names
    ensures Unnamed(fields, names) == []
  {
    if fields != [] {
      assert fields[0] in fields && forall f | f in fields[1..] :: f in fields;
      NothingUnnamed(fields[1..], names);
    }
  }

  lemma {:induction false} NothingNamed(fields: seq<Field>, name: Bytes)
    requires forall f | f in fields :: Lower(f.name) != name
    ensures Named(fields, name) == []
  {
    if fields != [] {
      assert fields[0] in fields && forall f | f in fields[1..] :: f in fields;
      NothingNamed(fields[1..], name);
    }
  }

  // ---------------------------------------------------------------- the configuration

  predicate IsKey(rules: Rules, name: Bytes) {
    exists i :: 0 <= i < |rules.setRequest| && rules.setRequest[i].0 == name
  }

  /** Names are configured in small letters, and none is set twice. */
  predicate PlainNames(rules: Rules) {
    && (forall i | 0 <= i < |rules.setRequest| :: Lower(rules.setRequest[i].0) == rules.setRequest[i].0)
    && (forall i, j | 0 <= i < j < |rules.setRequest| :: rules.setRequest[i].0 != rules.setRequest[j].0)
    && forall n | n in rules.removeRequest :: Lower(n) == n
  }

  /** The names the proxy never passes on. */
  const HOP_BY_HOP: set<Bytes> :=
    {"host", "connection", "keep-alive", "transfer-encoding", "upgrade", "x-real-ip", "x-forwarded-proto"}

  /** The names of fields that are not passed on as received. */
  ghost function Dropped(raw: Bytes, rules: Rules): set<Bytes> {
    HOP_BY_HOP
    + (set n | n in rules.removeRequest)
    + (set i | 0 <= i < |rules.setRequest| :: rules.setRequest[i].0)
    + (if !IsKey(rules, "x-forwarded-for") && !Mentions(raw, "x-forwarded-for") then {"x-forwarded-for"} else {})
  }

  lemma SkipsDropped(raw: Bytes, rules: Rules)
    ensures forall n :: n in SkipList(raw, rules) <==> n in Dropped(raw, rules)
    ensures AddsForwarded(raw, rules) <==> !IsKey(rules, "x-forwarded-for") && !Mentions(raw, "x-forwarded-for")
  {
    MentionsIs(raw, "x-forwarded-for");
    hide Mentions, HasForwarded, ContainsIc;
    assert HasForwarded(raw) == Mentions(raw, "x-forwarded-for") by { ForwardedMeans(raw); }
    var keys := Keys(rules.setRequest);
    assert forall n :: n in FIXED_SKIP <==> n in HOP_BY_HOP;
    forall n ensures n in keys <==> IsKey(rules, n) {
      if n in keys { var i :| 0 <= i < |keys| && keys[i] == n; assert rules.setRequest[i].0 == n; }
      if IsKey(rules, n) { var i :| 0 <= i < |rules.setRequest| && rules.setRequest[i].0 == n; assert keys[i] == n; }
    }
    forall n ensures n in SkipList(raw, rules) <==> n in Dropped(raw, rules) {
      assert n in SkipList(raw, rules) <==>
        || n in FIXED_SKIP || (AddsForwarded(raw, rules) && n == "x-forwarded-for")
        || n in rules.removeRequest || n in keys;
    }
  }

  lemma ForwardedMeans(raw: Bytes)
    ensures HasForwarded(raw) == Mentions(raw, "x-forwarded-for")
  {
    MentionsIs(raw, "x-forwarded-for");
    hide Mentions, ContainsIc;
  }

  // ---------------------------------------------------------------- what the proxy adds

  function SetFields(set_: seq<(Bytes, Bytes)>): seq<Field> {
    seq(|set_|, i requires 0 <= i < |set_| => Field(set_[i].0, LeftTrimmed(set_[i].1)))
  }

  /** The fields the proxy adds after host and connection. */
  function AddedFields(raw: Bytes, rules: Rules, ip: Bytes): seq<Field> {
    SetFields(rules.setRequest)
    + (if rules.Sets("x-real-ip") then [] else [Field("x-real-ip", LeftTrimmed(ip))])
    + (if AddsForwarded(raw, rules) then [Field("x-forwarded-for", LeftTrimmed(ip))] else [])
    + (if rules.Sets("x-forwarded-proto") then [] else [Field("x-forwarded-proto", "https")])
  }

  lemma SetLinesFields(set_: seq<(Bytes, Bytes)>)
    requires forall i | 0 <= i < |set_| :: TextPair(set_[i].0, set_[i].1)
    ensures AllHeaders(SetLines(set_)) && LineFields(SetLines(set_)) == SetFields(set_)
  {
    hide HeaderLine, FieldOf, LeftTrimmed;
    var lines := SetLines(set_);
    forall i | 0 <= i < |lines|
      ensures Clean(lines[i]) && ':' in lines[i] && FieldOf(lines[i]) == Field(set_[i].0, LeftTrimmed(set_[i].1))
    {
      HeaderLineField(set_[i].0, set_[i].1);
    }
    assert AllHeaders(lines);
  }

  lemma AddedLinesFields(raw: Bytes, rules: Rules, ip: Bytes)
    requires GoodText(rules) && '\n' !in ip
    ensures AllHeaders(AddedLines(raw, rules, ip))
    ensures LineFields(AddedLines(raw, rules, ip)) == AddedFields(raw, rules, ip)
  {
    hide HeaderLine, FieldOf, AddsForwarded, rules.Sets, LineFields, SetLines, SetFields, AllHeaders, LeftTrimmed;
    SetLinesFields(rules.setRequest);
    OptionalLine(!rules.Sets("x-real-ip"), "x-real-ip", ip);
    OptionalLine(AddsForwarded(raw, rules), "x-forwarded-for", ip);
    OptionalLine(!rules.Sets("x-forwarded-proto"), "x-forwarded-proto", "https");
    SchemeTrimmed();
    var b := if rules.Sets("x-real-ip") then [] else [HeaderLine("x-real-ip", ip)];
    var c := if AddsForwarded(raw, rules) then [HeaderLine("x-forwarded-for", ip)] else [];
    var d := if rules.Sets("x-forwarded-proto") then [] else [HeaderLine("x-forwarded-proto", "https")];
    Concat4(SetLines(rules.setRequest), b, c, d);
  }

  lemma SchemeTrimmed()
    ensures LeftTrimmed("https") == "https"
  {
  }

  lemma Concat4(a: seq<Bytes>, b: seq<Bytes>, c: seq<Bytes>, d: seq<Bytes>)
    requires AllHeaders(a) && AllHeaders(b) && AllHeaders(c) && AllHeaders(d)
    ensures AllHeaders(a + b + c + d)
    ensures LineFields(a + b + c + d) == LineFields(a) + LineFields(b) + LineFields(c) + LineFields(d)
  {
    hide LineFields, AllHeaders;
    LineFieldsConcat(a, b);
    LineFieldsConcat(a + b, c);
    LineFieldsConcat(a + b + c, d);
  }

  /** At most one configured field has a given name. */
  lemma {:induction false} NamedSet(set_: seq<(Bytes, Bytes)>, name: Bytes)
    requires forall i | 0 <= i < |set_| :: Lower(set_[i].0) == set_[i].0
    requires forall i, j | 0 <= i < j < |set_| :: set_[i].0 != set_[j].0
    ensures forall i | 0 <= i < |set_| && set_[i].0 == name ::
      Named(SetFields(set_), name) == [Field(name, LeftTrimmed(set_[i].1))]
    ensures (forall i | 0 <= i < |set_| :: set_[i].0 != name) ==> Named(SetFields(set_), name) == []
  {
    hide LeftTrimmed, Lower;
    if set_ != [] {
      var tail := set_[1..];
      NamedSet(tail, name);
      assert SetFields(set_) == [SetFields(set_)[0]] + SetFields(tail);
      assert SetFields(set_)[1..] == SetFields(tail);
      forall i | 0 <= i < |set_| && set_[i].0 == name
        ensures Named(SetFields(set_), name) == [Field(name, LeftTrimmed(set_[i].1))]
      {
        if i > 0 { assert tail[i - 1] == set_[i]; }
      }
    }
  }

  // ---------------------------------------------------------------- the rewritten head

  /** The fields of the rewritten head: the proxy's, the configured and the received ones. */
  function OutOf(raw: Bytes, rules: Rules, ip: Bytes, keepAlive: bool, received: seq<Field>): seq<Field> {
    FirstFields(rules, keepAlive) + AddedFields(raw, rules, ip) + Filter(received, SkipList(raw, rules))
  }

  lemma OutFields(raw: Bytes, path: Bytes, rules: Rules, ip: Bytes, keepAlive: bool, received: seq<Field>)
    requires RequestFast(raw).Ok? && RequestFast(raw).value.headersEnd == |raw| && HasFields(raw, received)
    requires GoodText(rules) && '\n' !in ip && Utf8(path) && ' ' !in path
    ensures HasFields(Rewritten(raw, path, rules, ip, keepAlive), OutOf(raw, rules, ip, keepAlive, received))
  {
    hide Wire, Split, Fields, RequestLineFor, HeaderLines, LineFields, GoodText, RequestFast, Utf8, MethodName;
    hide FirstFields, AddedFields, Filter, SkipList, AllHeaders, Clean;
    MethodBytes(raw);
    RequestLineBack(RequestFast(raw).value.method_, path);
    RewrittenFields(raw, rules, ip, keepAlive);
    AddedLinesFields(raw, rules, ip);
    var headers := HeaderLines(raw, rules, ip, keepAlive);
    HeadHasFields(RequestLineFor(MethodName(RequestFast(raw).value.method_), path), headers);
  }

  lemma HeadHasFields(rl: Bytes, headers: seq<Bytes>)
    requires Clean(rl) && AllHeaders(headers)
    ensures HasFields(Wire([rl] + headers) + "\r\n", LineFields(headers))
  {
    hide Wire, Split, Fields, LineFields;
    var all := [rl] + headers;
    assert all[1..] == headers && all[0] == rl && AllClean(all);
    WireStep(all);
    FieldsOfWire(headers);
    var rest := Split(Wire(headers) + "\r\n", '\n');
    assert ([rl + "\r"] + rest)[1..] == rest;
  }

  lemma NamedFirst(rules: Rules, keepAlive: bool, name: Bytes)
    ensures Named(FirstFields(rules, keepAlive), name) ==
      if name == "host" then [Field("host", LeftTrimmed(rules.domain))]
      else if name == "connection" then [Field("connection", if keepAlive then "keep-alive" else "close")]
      else []
  {
    hide LeftTrimmed, Lower, Named;
    LowerNames();
    var fields := FirstFields(rules, keepAlive);
    assert fields == [fields[0]] + [fields[1]];
    NamedConcat([fields[0]], [fields[1]], name);
    NamedOne(fields[0], name);
    NamedOne(fields[1], name);
  }

  lemma AddedLower()
    ensures Lower("x-real-ip") == "x-real-ip" && Lower("x-forwarded-for") == "x-forwarded-for"
    ensures Lower("x-forwarded-proto") == "x-forwarded-proto"
  {
  }

  lemma NamedOne(f: Field, name: Bytes)
    ensures Named([f], name) == if Lower(f.name) == name then [f] else []
    ensures Named([], name) == []
  {
    assert [f][1..] == [];
  }

  lemma NamedAdded(raw: Bytes, rules: Rules, ip: Bytes, name: Bytes)
    ensures Named(AddedFields(raw, rules, ip), name) ==
      Named(SetFields(rules.setRequest), name)
      + (if name == "x-real-ip" && !IsKey(rules, name) then [Field(name, LeftTrimmed(ip))] else [])
      + (if name == "x-forwarded-for" && AddsForwarded(raw, rules) then [Field(name, LeftTrimmed(ip))] else [])
      + (if name == "x-forwarded-proto" && !IsKey(rules, name) then [Field(name, "https")] else [])
  {
    hide LeftTrimmed, Lower, AddsForwarded, Named;
    AddedLower();
    SetsIsKey(rules);
    var a := SetFields(rules.setRequest);
    var b := if rules.Sets("x-real-ip") then [] else [Field("x-real-ip", LeftTrimmed(ip))];
    var c := if AddsForwarded(raw, rules) then [Field("x-forwarded-for", LeftTrimmed(ip))] else [];
    var d := if rules.Sets("x-forwarded-proto") then [] else [Field("x-forwarded-proto", "https")];
    NamedConcat(a, b, name);
    NamedConcat(a + b, c, name);
    NamedConcat(a + b + c, d, name);
    NamedOne(Field("x-real-ip", LeftTrimmed(ip)), name);
    NamedOne(Field("x-forwarded-for", LeftTrimmed(ip)), name);
    NamedOne(Field("x-forwarded-proto", "https"), name);
  }

  lemma SetsIsKey(rules: Rules)
    ensures forall name :: rules.Sets(name) <==> IsKey(rules, name)
  {
  }

  /** All fields of one name in the rewritten head: the proxy's own, the configured one, and the
      received ones unless the name is dropped. */
  lemma NamedOut(raw: Bytes, rules: Rules, ip: Bytes, keepAlive: bool, received: seq<Field>, name: Bytes)
    ensures Named(OutOf(raw, rules, ip, keepAlive, received), name)
      == Named(FirstFields(rules, keepAlive), name) + Named(AddedFields(raw, rules, ip), name)
         + (if name in Dropped(raw, rules) then [] else Named(received, name))
  {
    SkipsDropped(raw, rules);
    hide FirstFields, AddedFields, SkipList, Dropped, Filter, Named;
    var a, b, c := FirstFields(rules, keepAlive), AddedFields(raw, rules, ip), Filter(received, SkipList(raw, rules));
    NamedConcat(a, b, name);
    NamedConcat(a + b, c, name);
    NamedFilter(received, SkipList(raw, rules), name);
  }

  /** Everything that is not dropped arrives as it was received, and in that order. */
  lemma UnnamedOut(raw: Bytes, rules: Rules, ip: Bytes, keepAlive: bool, received: seq<Field>)
    requires PlainNames(rules)
    ensures Unnamed(OutOf(raw, rules, ip, keepAlive, received), Dropped(raw, rules))
      == Unnamed(received, Dropped(raw, rules))
  {
    SkipsDropped(raw, rules);
    var names := Dropped(raw, rules);
    AllDropped(raw, rules, ip, keepAlive);
    hide FirstFields, AddedFields, SkipList, Dropped, Filter, Unnamed;
    var a, b, c := FirstFields(rules, keepAlive), AddedFields(raw, rules, ip), Filter(received, SkipList(raw, rules));
    NothingUnnamed(a, names);
    NothingUnnamed(b, names);
    UnnamedConcat(a, b, names);
    UnnamedConcat(a + b, c, names);
    UnnamedFilter(received, SkipList(raw, rules), names);
  }

  lemma AllDropped(raw: Bytes, rules: Rules, ip: Bytes, keepAlive: bool)
    requires PlainNames(rules)
    ensures forall f | f in FirstFields(rules, keepAlive) :: Lower(f.name) in Dropped(raw, rules)
    ensures forall f | f in AddedFields(raw, rules, ip) :: Lower(f.name) in Dropped(raw, rules)
  {
    LowerNames();
    AddedLower();
    SkipsDropped(raw, rules);
    hide LeftTrimmed, Lower, SkipList, AddsForwarded;
    forall f | f in SetFields(rules.setRequest) ensures Lower(f.name) in Dropped(raw, rules) {
      var i :| 0 <= i < |rules.setRequest| && SetFields(rules.setRequest)[i] == f;
      assert rules.setRequest[i].0 == f.name;
    }
  }

  /** The same, spelled out for one name. */
  ghost predicate FieldsOfName(raw: Bytes, rules: Rules, ip: Bytes, keepAlive: bool, received: seq<Field>,
                               fields: seq<Field>, name: Bytes)
  {
    Named(fields, name) ==
      (if name == "host" then [Field("host", LeftTrimmed(rules.domain))]
       else if name == "connection" then [Field("connection", if keepAlive then "keep-alive" else "close")]
       else [])
      + (Named(SetFields(rules.setRequest), name)
         + (if name == "x-real-ip" && !IsKey(rules, name) then [Field(name, LeftTrimmed(ip))] else [])
         + (if name == "x-forwarded-for" && !IsKey(rules, name) && !Mentions(raw, name)
            then [Field(name, LeftTrimmed(ip))] else [])
         + (if name == "x-forwarded-proto" && !IsKey(rules, name) then [Field(name, "https")] else []))
      + (if name in Dropped(raw, rules) then [] else Named(received, name))
  }

  lemma EachName(raw: Bytes, rules: Rules, ip: Bytes, keepAlive: bool, received: seq<Field>, name: Bytes)
    ensures FieldsOfName(raw, rules, ip, keepAlive, received, OutOf(raw, rules, ip, keepAlive, received), name)
  {
    hide Named, FirstFields, AddedFields, Filter, SkipList, Dropped, Mentions, LeftTrimmed, SetFields, AddsForwarded;
    NamedOut(raw, rules, ip, keepAlive, received, name);
    NamedFirst(rules, keepAlive, name);
    NamedAdded(raw, rules, ip, name);
    SkipsDropped(raw, rules);
  }

  lemma KeysOnce(rules: Rules)
    requires PlainNames(rules)
    ensures forall i | 0 <= i < |rules.setRequest| ::
      Named(SetFields(rules.setRequest), rules.setRequest[i].0)
      == [Field(rules.setRequest[i].0, LeftTrimmed(rules.setRequest[i].1))]
    ensures forall n :: !IsKey(rules, n) ==> Named(SetFields(rules.setRequest), n) == []
  {
    hide Named, LeftTrimmed, Lower, SetFields;
    forall i | 0 <= i < |rules.setRequest|
      ensures Named(SetFields(rules.setRequest), rules.setRequest[i].0)
        == [Field(rules.setRequest[i].0, LeftTrimmed(rules.setRequest[i].1))]
    {
      NamedSet(rules.setRequest, rules.setRequest[i].0);
    }
    forall n | !IsKey(rules, n) ensures Named(SetFields(rules.setRequest), n) == [] {
      NamedSet(rules.setRequest, n);
    }
  }

  /** The names the proxy writes itself. */
  predicate Own(name: Bytes) {
    name in {"host", "connection", "x-real-ip", "x-forwarded-for", "x-forwarded-proto"}
  }

  /** What is left out: a removed name that is neither configured nor the proxy's own, and the
      hop-by-hop names that are not. */
  ghost predicate GoneFields(rules: Rules, fields: seq<Field>) {
    && (forall n | n in rules.removeRequest && !IsKey(rules, n) && !Own(n) :: Named(fields, n) == [])
    && (forall n | n in {"keep-alive", "transfer-encoding", "upgrade"} && !IsKey(rules, n) :: Named(fields, n) == [])
  }

  /** What is set: each configured name once, with the configured value. */
  ghost predicate ConfiguredFields(rules: Rules, fields: seq<Field>) {
    forall i | 0 <= i < |rules.setRequest| && rules.setRequest[i].0 !in {"host", "connection"} ::
      Named(fields, rules.setRequest[i].0) == [Field(rules.setRequest[i].0, LeftTrimmed(rules.setRequest[i].1))]
  }

  /** What the proxy says, each once: host, connection, the address and the scheme; and who it
      forwards for, unless the head mentions that already. */
  ghost predicate OwnFields(raw: Bytes, rules: Rules, ip: Bytes, keepAlive: bool, received: seq<Field>,
                            fields: seq<Field>)
  {
    && (!IsKey(rules, "host") ==> Named(fields, "host") == [Field("host", LeftTrimmed(rules.domain))])
    && (!IsKey(rules, "connection") ==>
          Named(fields, "connection") == [Field("connection", if keepAlive then "keep-alive" else "close")])
    && (!IsKey(rules, "x-real-ip") ==> Named(fields, "x-real-ip") == [Field("x-real-ip", LeftTrimmed(ip))])
    && (!IsKey(rules, "x-forwarded-proto") ==>
          Named(fields, "x-forwarded-proto") == [Field("x-forwarded-proto", "https")])
    && (!IsKey(rules, "x-forwarded-for") ==>
          Named(fields, "x-forwarded-for") ==
            if !Mentions(raw, "x-forwarded-for") then [Field("x-forwarded-for", LeftTrimmed(ip))]
            else if "x-forwarded-for" in rules.removeRequest then []
            else Named(received, "x-forwarded-for"))
  }

  ghost predicate AllNames(raw: Bytes, rules: Rules, ip: Bytes, keepAlive: bool, received: seq<Field>,
                           fields: seq<Field>)
  {
    forall n :: FieldsOfName(raw, rules, ip, keepAlive, received, fields, n)
  }

  lemma GoneName(raw: Bytes, rules: Rules, ip: Bytes, keepAlive: bool, received: seq<Field>, fields: seq<Field>,
                 name: Bytes)
    requires FieldsOfName(raw, rules, ip, keepAlive, received, fields, name) && PlainNames(rules)
    requires !IsKey(rules, name) && !Own(name) && name in Dropped(raw, rules)
    ensures Named(fields, name) == []
  {
    KeysOnce(rules);
    hide Named, LeftTrimmed, SetFields, Mentions, Dropped, PlainNames, IsKey;
  }

  lemma GoneMeans(raw: Bytes, rules: Rules, ip: Bytes, keepAlive: bool, received: seq<Field>, fields: seq<Field>)
    requires AllNames(raw, rules, ip, keepAlive, received, fields) && PlainNames(rules)
    ensures GoneFields(rules, fields)
  {
    hide Named, FieldsOfName, IsKey, Mentions, Own, PlainNames;
    forall n | !IsKey(rules, n) && !Own(n) && n in Dropped(raw, rules) ensures Named(fields, n) == [] {
      GoneName(raw, rules, ip, keepAlive, received, fields, n);
    }
    NotOwn();
  }

  lemma NotOwn()
    ensures forall n | n in {"keep-alive", "transfer-encoding", "upgrade"} :: !Own(n)
  {
  }

  lemma ConfiguredName(raw: Bytes, rules: Rules, ip: Bytes, keepAlive: bool, received: seq<Field>, fields: seq<Field>,
                       name: Bytes, value: Bytes)
    requires FieldsOfName(raw, rules, ip, keepAlive, received, fields, name)
    requires IsKey(rules, name) && name in Dropped(raw, rules) && name != "host" && name != "connection"
    requires Named(SetFields(rules.setRequest), name) == [Field(name, LeftTrimmed(value))]
    ensures Named(fields, name) == [Field(name, LeftTrimmed(value))]
  {
    hide Named, LeftTrimmed, SetFields, Mentions, Dropped, IsKey;
  }

  lemma KeyDropped(raw: Bytes, rules: Rules, i: nat)
    requires i < |rules.setRequest|
    ensures IsKey(rules, rules.setRequest[i].0) && rules.setRequest[i].0 in Dropped(raw, rules)
  {
    hide Mentions;
  }

  lemma ConfiguredMeans(raw: Bytes, rules: Rules, ip: Bytes, keepAlive: bool, received: seq<Field>, fields: seq<Field>)
    requires AllNames(raw, rules, ip, keepAlive, received, fields) && PlainNames(rules)
    ensures ConfiguredFields(rules, fields)
  {
    hide Named, FieldsOfName, LeftTrimmed, PlainNames, SetFields, IsKey, Dropped;
    KeysOnce(rules);
    forall i | 0 <= i < |rules.setRequest| && rules.setRequest[i].0 !in {"host", "connection"}
      ensures Named(fields, rules.setRequest[i].0)
        == [Field(rules.setRequest[i].0, LeftTrimmed(rules.setRequest[i].1))]
    {
      KeyDropped(raw, rules, i);
      ConfiguredName(raw, rules, ip, keepAlive, received, fields, rules.setRequest[i].0, rules.setRequest[i].1);
    }
  }

  lemma OwnMeans(raw: Bytes, rules: Rules, ip: Bytes, keepAlive: bool, received: seq<Field>, fields: seq<Field>)
    requires AllNames(raw, rules, ip, keepAlive, received, fields) && PlainNames(rules)
    ensures OwnFields(raw, rules, ip, keepAlive, received, fields)
  {
    hide Named, LeftTrimmed, Mentions, Dropped, FieldsOfName, PlainNames;
    ForwardedDropped(raw, rules);
    assert FieldsOfName(raw, rules, ip, keepAlive, received, fields, "host");
    assert FieldsOfName(raw, rules, ip, keepAlive, received, fields, "connection");
    assert FieldsOfName(raw, rules, ip, keepAlive, received, fields, "x-real-ip");
    assert FieldsOfName(raw, rules, ip, keepAlive, received, fields, "x-forwarded-proto");
    assert FieldsOfName(raw, rules, ip, keepAlive, received, fields, "x-forwarded-for");
    if !IsKey(rules, "host") { OwnName(raw, rules, ip, keepAlive, received, fields, "host"); }
    if !IsKey(rules, "connection") { OwnName(raw, rules, ip, keepAlive, received, fields, "connection"); }
    if !IsKey(rules, "x-real-ip") { OwnName(raw, rules, ip, keepAlive, received, fields, "x-real-ip"); }
    if !IsKey(rules, "x-forwarded-proto") { OwnName(raw, rules, ip, keepAlive, received, fields, "x-forwarded-proto"); }
    if !IsKey(rules, "x-forwarded-for") { OwnName(raw, rules, ip, keepAlive, received, fields, "x-forwarded-for"); }
  }

  lemma OwnName(raw: Bytes, rules: Rules, ip: Bytes, keepAlive: bool, received: seq<Field>, fields: seq<Field>,
                name: Bytes)
    requires FieldsOfName(raw, rules, ip, keepAlive, received, fields, name) && PlainNames(rules) && Own(name)
    requires !IsKey(rules, name)
    ensures Named(fields, name) ==
      if name == "host" then [Field("host", LeftTrimmed(rules.domain))]
      else if name == "connection" then [Field("connection", if keepAlive then "keep-alive" else "close")]
      else if name == "x-real-ip" then [Field(name, LeftTrimmed(ip))]
      else if name == "x-forwarded-proto" then [Field(name, "https")]
      else if !Mentions(raw, name) then [Field(name, LeftTrimmed(ip))]
      else if name in Dropped(raw, rules) then [] else Named(received, name)
  {
    KeysOnce(rules);
    assert HOP_BY_HOP <= Dropped(raw, rules);
    ForwardedDropped(raw, rules);
    hide Named, LeftTrimmed, SetFields, Mentions, Dropped, PlainNames;
  }

  lemma ForwardedDropped(raw: Bytes, rules: Rules)
    ensures !IsKey(rules, "x-forwarded-for") ==>
      ("x-forwarded-for" in Dropped(raw, rules) <==>
         "x-forwarded-for" in rules.removeRequest || !Mentions(raw, "x-forwarded-for"))
  {
    hide Mentions;
  }

  /** For every accepted head and every configuration with plain names, told from the parsed
      fields before (`received`) and after (`fields`): what is removed is gone, what is configured
      occurs once, the proxy's own fields are its own, and every other field is there, as received
      and in that order. */
  lemma HeadersReach(raw: Bytes, path: Bytes, rules: Rules, ip: Bytes, keepAlive: bool,
                     received: seq<Field>, fields: seq<Field>)
    requires RequestFast(raw).Ok? && RequestFast(raw).value.headersEnd == |raw| && HasFields(raw, received)
    requires GoodText(rules) && PlainNames(rules) && '\n' !in ip && Utf8(path) && ' ' !in path
    requires HasFields(Rewritten(raw, path, rules, ip, keepAlive), fields)
    ensures GoneFields(rules, fields) && ConfiguredFields(rules, fields)
    ensures OwnFields(raw, rules, ip, keepAlive, received, fields)
    ensures Unnamed(fields, Dropped(raw, rules)) == Unnamed(received, Dropped(raw, rules))
  {
    hide Rewritten, Utf8, RequestFast, GoodText, FirstFields, AddedFields, Filter, SkipList, Unnamed, Dropped;
    hide FieldsOfName, PlainNames, GoneFields, ConfiguredFields, OwnFields;
    OutFields(raw, path, rules, ip, keepAlive, received);
    UnnamedOut(raw, rules, ip, keepAlive, received);
    forall n ensures FieldsOfName(raw, rules, ip, keepAlive, received, fields, n) {
      EachName(raw, rules, ip, keepAlive, received, n);
    }
    assert AllNames(raw, rules, ip, keepAlive, received, fields);
    GoneMeans(raw, rules, ip, keepAlive, received, fields);
    ConfiguredMeans(raw, rules, ip, keepAlive, received, fields);
    OwnMeans(raw, rules, ip, keepAlive, received, fields);
  }

  /** How many names are to be skipped. */
  lemma SkipCount(raw: Bytes, rules: Rules)
    ensures |SkipList(raw, rules)| ==
      7 + |rules.removeRequest| + |rules.setRequest|
      + (if !IsKey(rules, "x-forwarded-for") && !Mentions(raw, "x-forwarded-for") then 1 else 0)
  {
    SkipsDropped(raw, rules);
    hide Mentions, IsKey, AddsForwarded;
  }
}
