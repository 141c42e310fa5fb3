/** rewrite_request of halo/src/h1.rs: the head sent to the upstream.

    The main result is a round trip through the parser: parsing the rewritten head gives the
    same method, body framing and expectation as the head that was received, with host and
    connection replaced, whatever the configured header rules add or remove. */
module H1Rewrite {
  import opened Text
  import opened Proto
  import opened Buffers

  datatype Rules = Rules(domain: Bytes, setRequest: seq<(Bytes, Bytes)>, removeRequest: seq<Bytes>)
  {
    predicate Sets(key: Bytes) { exists i | 0 <= i < |setRequest| :: setRequest[i].0 == key }
  }

  const SKIP_SLOTS := 32

  // ---------------------------------------------------------------- the rewritten head

  /** Lines on the wire, each followed by CR LF. */
  function Wire(lines: seq<Bytes>): Bytes {
    if lines == [] then "" else lines[0] + "\r\n" + Wire(lines[1..])
  }

  function StripCr(line: Bytes): Bytes {
    if line != "" && line[|line| - 1] == '\r' then line[..|line| - 1] else line
  }

  predicate Skipped(name: Bytes, skip: seq<Bytes>) {
    exists i | 0 <= i < |skip| :: EqIc(name, skip[i])
  }

  predicate Keeps(line: Bytes, skip: seq<Bytes>) {
    var colon := IndexOf(line, ':');
    colon >= 0 && !Skipped(line[..colon], skip)
  }

  /** The header lines passed on: those with a colon whose name is not skipped, up to the
      first empty line. */
  function Kept(lines: seq<Bytes>, skip: seq<Bytes>): seq<Bytes> {
    if lines == [] || StripCr(lines[0]) == "" then []
    else
      (if Keeps(StripCr(lines[0]), skip) then [StripCr(lines[0])] else []) + Kept(lines[1..], skip)
  }

  function RequestLineFor(method_: Bytes, path: Bytes): Bytes {
    method_ + " " + (if '\r' in path || '\n' in path then "/" else path) + (" " + "HTTP/1.1")
  }

  function HeaderLine(name: Bytes, value: Bytes): Bytes { name + ": " + value }

  function SetLines(set_: seq<(Bytes, Bytes)>): seq<Bytes> {
    seq(|set_|, i requires 0 <= i < |set_| => HeaderLine(set_[i].0, set_[i].1))
  }

  predicate HasForwarded(raw: Bytes) { ContainsIc(raw, "x-forwarded-for") }

  predicate AddsForwarded(raw: Bytes, rules: Rules) {
    !rules.Sets("x-forwarded-for") && !HasForwarded(raw)
  }

  /** The lines the proxy adds after host and connection. */
  function AddedLines(raw: Bytes, rules: Rules, ip: Bytes): seq<Bytes> {
    SetLines(rules.setRequest)
    + (if rules.Sets("x-real-ip") then [] else [HeaderLine("x-real-ip", ip)])
    + (if AddsForwarded(raw, rules) then [HeaderLine("x-forwarded-for", ip)] else [])
    + (if rules.Sets("x-forwarded-proto") then [] else [HeaderLine("x-forwarded-proto", "https")])
  }

  function ConnectionLine(keepAlive: bool): Bytes {
    HeaderLine("connection", if keepAlive then "keep-alive" else "close")
  }

  const FIXED_SKIP: seq<Bytes> :=
    ["host", "connection", "keep-alive", "transfer-encoding", "upgrade", "x-real-ip", "x-forwarded-proto"]

  function Keys(set_: seq<(Bytes, Bytes)>): seq<Bytes> {
    seq(|set_|, i requires 0 <= i < |set_| => set_[i].0)
  }

  function SkipList(raw: Bytes, rules: Rules): seq<Bytes> {
    FIXED_SKIP + (if AddsForwarded(raw, rules) then ["x-forwarded-for"] else [])
    + rules.removeRequest + Keys(rules.setRequest)
  }

  /** The header lines of the rewritten head: host, connection, the added ones and the ones
      passed on. */
  function HeaderLines(raw: Bytes, rules: Rules, ip: Bytes, keepAlive: bool): seq<Bytes> {
    [HeaderLine("host", rules.domain), ConnectionLine(keepAlive)]
    + AddedLines(raw, rules, ip)
    + Kept(Split(raw, '\n')[1..], SkipList(raw, rules))
  }

  function HeadLines(raw: Bytes, path: Bytes, rules: Rules, ip: Bytes, keepAlive: bool): seq<Bytes> {
    [RequestLineFor(Split(Split(raw, '\n')[0], ' ')[0], path)] + HeaderLines(raw, rules, ip, keepAlive)
  }

  function Rewritten(raw: Bytes, path: Bytes, rules: Rules, ip: Bytes, keepAlive: bool): Bytes {
    Wire(HeadLines(raw, path, rules, ip, keepAlive)) + "\r\n"
  }

  lemma {:induction false} WireAppend(lines: seq<Bytes>, line: Bytes)
    ensures Wire(lines + [line]) == Wire(lines) + line + "\r\n"
  {
    if lines == [] {
      assert Wire([line]) == line + "\r\n" + Wire([line][1..]);
    } else {
      var head, tail := lines[0], lines[1..];
      assert lines + [line] == [head] + (tail + [line]);
      assert (lines + [line])[1..] == tail + [line];
      WireAppend(tail, line);
      assert head + "\r\n" + (Wire(tail) + line + "\r\n") == head + "\r\n" + Wire(tail) + line + "\r\n";
    }
  }

  /** One header line is appended piece by piece. */
  method PutHeader(out: BytesMut, ghost sent: seq<Bytes>, name: Bytes, value: Bytes)
    requires out.data == Wire(sent)
    modifies out
    ensures out.data == Wire(sent + [HeaderLine(name, value)])
  {
    WireAppend(sent, HeaderLine(name, value));
    out.Extend(name);
    out.Extend(": ");
    out.Extend(value);
    out.Extend("\r\n");
  }

  method PutRequestLine(out: BytesMut, method_: Bytes, path: Bytes)
    requires out.data == ""
    modifies out
    ensures out.data == Wire([RequestLineFor(method_, path)])
  {
    out.Extend(method_);
    out.Extend(" ");
    if '\r' in path || '\n' in path {
      out.Extend("/ HTTP/1.1\r\n");
    } else {
      out.Extend(path);
      out.Extend(" HTTP/1.1\r\n");
    }
    WireAppend([], RequestLineFor(method_, path));
  }

  method FillSlots(slots: array<Bytes>, n: nat, names: seq<Bytes>)
    requires n + |names| <= slots.Length
    modifies slots
    ensures slots[..n + |names|] == old(slots[..n]) + names
  {
    var i := 0;
    while i < |names|
      invariant i <= |names|
      invariant slots[..n + i] == old(slots[..n]) + names[..i]
    {
      slots[n + i] := names[i];
      i := i + 1;
    }
  }

  /** The names not passed on, collected in a fixed array of 32 slots; one name too many is
      an index out of range. */
  method CollectSkip(raw: Bytes, rules: Rules) returns (skip: seq<Bytes>)
    requires |SkipList(raw, rules)| <= SKIP_SLOTS
    ensures skip == SkipList(raw, rules)
  {
    hide HasForwarded;
    var slots := new Bytes[SKIP_SLOTS](_ => "");
    var fixed := FIXED_SKIP;
    FillSlots(slots, 0, fixed);
    var n := |fixed|;
    var extra := if !HasForwarded(raw) && !rules.Sets("x-forwarded-for") then ["x-forwarded-for"] else [];
    FillSlots(slots, n, extra);
    n := n + |extra|;
    FillSlots(slots, n, rules.removeRequest);
    n := n + |rules.removeRequest|;
    var keys := Keys(rules.setRequest);
    FillSlots(slots, n, keys);
    n := n + |keys|;
    skip := slots[..n];
  }

  method PutSetLines(out: BytesMut, ghost sent: seq<Bytes>, set_: seq<(Bytes, Bytes)>)
    requires out.data == Wire(sent)
    modifies out
    ensures out.data == Wire(sent + SetLines(set_))
  {
    var i := 0;
    ghost var all := SetLines(set_);
    assert sent + all[..0] == sent;
    while i < |set_|
      invariant i <= |set_| && out.data == Wire(sent + all[..i])
    {
      assert sent + all[..i + 1] == sent + all[..i] + [all[i]];
      PutHeader(out, sent + all[..i], set_[i].0, set_[i].1);
      i := i + 1;
    }
    assert all[..i] == all;
  }

  lemma KeptNone(lines: seq<Bytes>, skip: seq<Bytes>)
    requires lines == []
    ensures Kept(lines, skip) == []
  {
  }

  lemma KeptStep(lines: seq<Bytes>, i: nat, skip: seq<Bytes>)
    requires i < |lines|
    ensures StripCr(lines[i]) == "" ==> Kept(lines[i..], skip) == []
    ensures StripCr(lines[i]) != "" ==>
      Kept(lines[i..], skip)
      == (if Keeps(StripCr(lines[i]), skip) then [StripCr(lines[i])] else []) + Kept(lines[i + 1..], skip)
  {
    assert lines[i..][1..] == lines[i + 1..];
  }

  /** Passing the remaining lines on, until the first empty one. */
  method PutKept(out: BytesMut, ghost sent: seq<Bytes>, lines: seq<Bytes>, skip: seq<Bytes>)
    requires out.data == Wire(sent)
    modifies out
    ensures out.data == Wire(sent + Kept(lines, skip))
  {
    hide Wire, StripCr, Skipped, IndexOf, Kept;
    var i := 0;
    ghost var kept: seq<Bytes> := [];
    assert lines[0..] == lines && sent + [] == sent;
    while i < |lines|
      invariant i <= |lines| && out.data == Wire(sent + kept)
      invariant Kept(lines, skip) == kept + Kept(lines[i..], skip)
    {
      KeptStep(lines, i, skip);
      var line := StripCr(lines[i]);
      if line == "" {
        assert kept + [] == kept;
        return;
      }
      var colon := IndexOf(line, ':');
      ghost var rest := Kept(lines[i + 1..], skip);
      if colon >= 0 && !Skipped(line[..colon], skip) {
        WireAppend(sent + kept, line);
        out.Extend(line);
        out.Extend("\r\n");
        Assoc(sent, kept, [line]);
        Assoc(kept, [line], rest);
        kept := kept + [line];
      } else {
        assert [] + rest == rest;
      }
      i := i + 1;
    }
    KeptNone(lines[i..], skip);
    assert kept + [] == kept;
  }

  lemma AppendNothing<T>(s: seq<T>)
    ensures s + [] == s
  {
  }

  lemma Assoc5<T>(a: seq<T>, b: seq<T>, c: seq<T>, d: seq<T>, e: seq<T>)
    ensures a + b + c + d + e == a + (b + c + d + e)
  {
  }

  method PutAdded(out: BytesMut, ghost sent: seq<Bytes>, raw: Bytes, rules: Rules, ip: Bytes)
    requires out.data == Wire(sent)
    modifies out
    ensures out.data == Wire(sent + AddedLines(raw, rules, ip))
  {
    hide HasForwarded, SetLines, HeaderLine, Wire;
    PutSetLines(out, sent, rules.setRequest);
    ghost var now := sent + SetLines(rules.setRequest);
    ghost var realIp := if rules.Sets("x-real-ip") then [] else [HeaderLine("x-real-ip", ip)];
    if !rules.Sets("x-real-ip") {
      PutHeader(out, now, "x-real-ip", ip);
    }
    AppendNothing(now);
    now := now + realIp;
    var hasXff := HasForwarded(raw);
    ghost var xff := if AddsForwarded(raw, rules) then [HeaderLine("x-forwarded-for", ip)] else [];
    if !rules.Sets("x-forwarded-for") && !hasXff {
      PutHeader(out, now, "x-forwarded-for", ip);
    }
    AppendNothing(now);
    now := now + xff;
    ghost var proto := if rules.Sets("x-forwarded-proto") then [] else [HeaderLine("x-forwarded-proto", "https")];
    if !rules.Sets("x-forwarded-proto") {
      PutHeader(out, now, "x-forwarded-proto", "https");
    }
    AppendNothing(now);
    Assoc5(sent, SetLines(rules.setRequest), realIp, xff, proto);
  }

  /** The method writes exactly the rewritten head, whatever the buffer held before. */
  method RewriteRequest(raw: Bytes, path: Bytes, rules: Rules, ip: Bytes, keepAlive: bool, out: BytesMut)
    requires |SkipList(raw, rules)| <= SKIP_SLOTS
    modifies out
    ensures out.data == Rewritten(raw, path, rules, ip, keepAlive)
  {
    hide Split, Kept, SkipList, RequestLineFor, HeaderLine, Wire, AddedLines;
    out.Clear();
    var lines := Split(raw, '\n');
    var method_ := Split(lines[0], ' ')[0];
    PutRequestLine(out, method_, path);
    ghost var first := [RequestLineFor(method_, path)];
    PutHeader(out, first, "host", rules.domain);
    var connection := if keepAlive then "keep-alive" else "close";
    PutHeader(out, first + [HeaderLine("host", rules.domain)], "connection", connection);
    ghost var two := [HeaderLine("host", rules.domain), ConnectionLine(keepAlive)];
    assert first + [HeaderLine("host", rules.domain)] + [ConnectionLine(keepAlive)] == first + two;
    PutAdded(out, first + two, raw, rules, ip);
    var skip := CollectSkip(raw, rules);
    PutKept(out, first + two + AddedLines(raw, rules, ip), lines[1..], skip);
    Assoc(first, two, AddedLines(raw, rules, ip));
    Assoc(first, two + AddedLines(raw, rules, ip), Kept(lines[1..], skip));
    out.Extend("\r\n");
  }
}
