/** The iCalendar printer and parser of frontend/lib/ics-utils.ts, and when one undoes the
    other. */
module Ics {
  import opened Text

  datatype IcsEvent = IcsEvent(title: string, description: string, date: string, startTime: string, endTime: string)

  // ---------------------------------------------------------------- printing

  /** A missing part of a split string prints as "undefined". */
  function PartAt(parts: seq<string>, i: nat): string {
    if i < |parts| then parts[i] else "undefined"
  }

  function FormatIcsDate(date: string, time: string): string {
    var d, t := Split(date, '-'), Split(time, ':');
    PartAt(d, 0) + PartAt(d, 1) + PartAt(d, 2) + "T" + PartAt(t, 0) + PartAt(t, 1) + "00"
  }

  function EscapeLf(s: string): (r: string)
    ensures '\n' !in r
    ensures '\n' !in s ==> r == s
  {
    if s == "" then "" else (if s[0] == '\n' then "\\n" else [s[0]]) + EscapeLf(s[1..])
  }

  const PREAMBLE: seq<string> :=
    ["BEGIN:VCALENDAR", "VERSION:2.0", "PRODID:-//EcliPanel//Calendar//EN", "CALSCALE:GREGORIAN", "METHOD:PUBLISH"]

  const BEGIN_EVENT := "BEGIN:VEVENT"
  const END_EVENT := "END:VEVENT"

  function Property(key: string, value: string): string { key + ":" + value }

  function Uid(ev: IcsEvent, stamp: string): string {
    ev.date + "-" + ev.startTime + "-" + Dashed(ev.title) + "-" + stamp
  }

  /** The lines of one event; `stamp` is the clock reading in its identifier. */
  function EventLines(ev: IcsEvent, stamp: string): seq<string> {
    [BEGIN_EVENT, Property("UID", Uid(ev, stamp)),
     Property("DTSTART", FormatIcsDate(ev.date, ev.startTime)), Property("DTEND", FormatIcsDate(ev.date, ev.endTime)),
     Property("SUMMARY", ev.title)]
    + (if ev.description != "" then [Property("DESCRIPTION", EscapeLf(ev.description))] else [])
    + [END_EVENT]
  }

  function AllEventLines(events: seq<IcsEvent>, stamps: seq<string>): seq<string>
    requires |events| == |stamps|
  {
    if events == [] then []
    else
      var n := |events| - 1;
      AllEventLines(events[..n], stamps[..n]) + EventLines(events[n], stamps[n])
  }

  function CalendarLines(events: seq<IcsEvent>, stamps: seq<string>): seq<string>
    requires |events| == |stamps|
  {
    PREAMBLE + AllEventLines(events, stamps) + ["END:VCALENDAR"]
  }

  method GenerateIcs(events: seq<IcsEvent>, stamps: seq<string>) returns (r: string)
    requires |events| == |stamps|
    ensures r == Join(CalendarLines(events, stamps), "\r\n")
  {
    hide EventLines;
    var lines := PREAMBLE;
    var i := 0;
    assert events[..0] == [] && PREAMBLE + [] == PREAMBLE;
    while i < |events|
      invariant 0 <= i <= |events|
      invariant lines == PREAMBLE + AllEventLines(events[..i], stamps[..i])
    {
      var ev := events[i];
      AllStep(events, stamps, i);
      Assoc(PREAMBLE, AllEventLines(events[..i], stamps[..i]), EventLines(ev, stamps[i]));
      lines := PushEvent(lines, ev, stamps[i]);
      i := i + 1;
    }
    assert events[..i] == events && stamps[..i] == stamps;
    lines := lines + ["END:VCALENDAR"];
    r := Join(lines, "\r\n");
  }

  lemma AllStep(events: seq<IcsEvent>, stamps: seq<string>, i: nat)
    requires |events| == |stamps| && i < |events|
    ensures AllEventLines(events[..i + 1], stamps[..i + 1])
      == AllEventLines(events[..i], stamps[..i]) + EventLines(events[i], stamps[i])
  {
    hide EventLines;
    assert events[..i + 1][..i] == events[..i] && stamps[..i + 1][..i] == stamps[..i];
  }

  method PushEvent(before: seq<string>, ev: IcsEvent, stamp: string) returns (lines: seq<string>)
    ensures lines == before + EventLines(ev, stamp)
  {
    var dtStart := FormatIcsDate(ev.date, ev.startTime);
    var dtEnd := FormatIcsDate(ev.date, ev.endTime);
    hide Property, FormatIcsDate, Uid, EscapeLf;
    lines := before + [BEGIN_EVENT];
    lines := lines + [Property("UID", Uid(ev, stamp))];
    lines := lines + [Property("DTSTART", dtStart)];
    lines := lines + [Property("DTEND", dtEnd)];
    lines := lines + [Property("SUMMARY", ev.title)];
    if ev.description != "" { lines := lines + [Property("DESCRIPTION", EscapeLf(ev.description))]; }
    lines := lines + [END_EVENT];
  }

  // ---------------------------------------------------------------- parsing

  /** The pieces between line breaks, where a line break is LF with or without a CR before. */
  function SplitLines(content: string): seq<string> {
    DropCrs(Split(content, '\n'))
  }

  function DropCrs(pieces: seq<string>): (r: seq<string>)
    ensures |r| == |pieces|
    ensures forall i | 0 <= i < |pieces| :: r[i] <= pieces[i]
  {
    if |pieces| <= 1 then pieces
    else
      var p := pieces[0];
      [if p != "" && p[|p| - 1] == '\r' then p[..|p| - 1] else p] + DropCrs(pieces[1..])
  }

  datatype State = State(inEvent: bool, current: map<string, string>, events: seq<IcsEvent>)

  function Lookup(m: map<string, string>, key: string): string { if key in m then m[key] else "" }

  /** JavaScript's slice with both bounds clipped to the length. */
  function Slice(s: string, i: nat, j: nat): string
    requires i <= j
  {
    var lo, hi := (if i < |s| then i else |s|), (if j < |s| then j else |s|);
    s[lo..hi]
  }

  /** The event a block of properties describes; None without start or end. */
  function EventOf(current: map<string, string>): Option<IcsEvent> {
    var dtStart, dtEnd := Lookup(current, "DTSTART"), Lookup(current, "DTEND");
    var summary := Lookup(current, "SUMMARY");
    if dtStart == "" || dtEnd == "" then None
    else Some(IcsEvent(
      if summary == "" then "Untitled" else summary,
      Lookup(current, "DESCRIPTION"),
      Slice(dtStart, 0, 4) + "-" + Slice(dtStart, 4, 6) + "-" + Slice(dtStart, 6, 8),
      Slice(dtStart, 9, 11) + ":" + Slice(dtStart, 11, 13),
      Slice(dtEnd, 9, 11) + ":" + Slice(dtEnd, 11, 13)))
  }

  /** What one line does to the parser. */
  function Step(st: State, raw: string): State {
    var line := JsTrim(raw);
    if line == BEGIN_EVENT then State(true, map[], st.events)
    else if line == END_EVENT then
      State(false, st.current, st.events + match EventOf(st.current) case None => [] case Some(ev) => [ev])
    else
      var colon := IndexOf(line, ':');
      if st.inEvent && colon > 0 then st.(current := st.current[line[..colon] := line[colon + 1..]]) else st
  }

  function Steps(st: State, lines: seq<string>): State {
    if lines == [] then st else Step(Steps(st, lines[..|lines| - 1]), lines[|lines| - 1])
  }

  function Parsed(content: string): seq<IcsEvent> {
    Steps(State(false, map[], []), SplitLines(content)).events
  }

  method ParseIcs(content: string) returns (events: seq<IcsEvent>)
    ensures events == Parsed(content)
  {
    hide JsTrim, SplitLines;
    events := [];
    var lines := SplitLines(content);
    var inEvent := false;
    var current: map<string, string> := map[];
    var i := 0;
    assert lines[..0] == [];
    while i < |lines|
      invariant 0 <= i <= |lines|
      invariant State(inEvent, current, events) == Steps(State(false, map[], []), lines[..i])
    {
      assert lines[..i + 1][..i] == lines[..i];
      var line := JsTrim(lines[i]);
      i := i + 1;
      if line == BEGIN_EVENT {
        inEvent, current := true, map[];
        continue;
      }
      if line == END_EVENT {
        inEvent := false;
        var ev := EventOf(current);
        if ev.Some? { events := events + [ev.value]; } else { assert events + [] == events; }
        continue;
      }
      if inEvent {
        var colonIdx := IndexOf(line, ':');
        if colonIdx > 0 {
          var key, val := line[..colonIdx], line[colonIdx + 1..];
          current := current[key := val];
        }
      }
    }
    assert lines[..i] == lines;
  }

  lemma {:induction false} StepsConcat(st: State, a: seq<string>, b: seq<string>)
    ensures Steps(st, a + b) == Steps(Steps(st, a), b)
  {
    hide Step;
    if b == [] {
      assert a + b == a;
    } else {
      var n := |b| - 1;
      StepsConcat(st, a, b[..n]);
      assert (a + b)[..|a| + n] == a + b[..n];
    }
  }

  // ---------------------------------------------------------------- lines come back

  lemma JoinStep(lines: seq<string>)
    requires |lines| > 1
    ensures Join(lines, "\r\n") == lines[0] + "\r" + ['\n'] + Join(lines[1..], "\r\n")
  {
    assert lines[0] + "\r\n" == lines[0] + "\r" + ['\n'];
  }

  /** Joined lines are split into the same lines when none holds a line feed. */
  lemma {:induction false} LinesBack(lines: seq<string>)
    requires lines != [] && forall i | 0 <= i < |lines| :: '\n' !in lines[i]
    ensures SplitLines(Join(lines, "\r\n")) == lines
  {
    hide Join, Split;
    if |lines| == 1 {
      JoinOne(lines[0]);
      SplitNone(lines[0], '\n');
      assert lines == [lines[0]];
    } else {
      var head, tail := lines[0] + "\r", lines[1..];
      LinesBack(tail);
      JoinStep(lines);
      SplitCons(head, '\n', Join(tail, "\r\n"));
      var rest := Split(Join(tail, "\r\n"), '\n');
      assert ([head] + rest)[1..] == rest;
      assert head[..|head| - 1] == lines[0];
      assert lines == [lines[0]] + tail;
    }
  }

  lemma JoinOne(line: string)
    ensures Join([line], "\r\n") == line
  {
  }

  // ---------------------------------------------------------------- one event comes back

  predicate Digit(c: char) { '0' <= c <= '9' }

  predicate AllDigits(s: string) { forall c | c in s :: Digit(c) }

  /** YYYY-MM-DD */
  predicate DateOk(s: string) {
    |s| == 10 && s[4] == '-' && s[7] == '-' && AllDigits(s[..4]) && AllDigits(s[5..7]) && AllDigits(s[8..])
  }

  /** HH:MM */
  predicate TimeOk(s: string) { |s| == 5 && s[2] == ':' && AllDigits(s[..2]) && AllDigits(s[3..]) }

  predicate Shaped(ev: IcsEvent) { DateOk(ev.date) && TimeOk(ev.startTime) && TimeOk(ev.endTime) }

  /** A text that fits on one line and survives trimming. */
  predicate Clean(s: string) { '\n' !in s && (s != "" ==> !JsSpace(s[|s| - 1])) }

  predicate Printable(ev: IcsEvent) { ev.title != "" && Clean(ev.title) && Clean(ev.description) }

  lemma DateParts(date: string, time: string)
    requires DateOk(date) && TimeOk(time)
    ensures FormatIcsDate(date, time) == date[..4] + date[5..7] + date[8..] + "T" + time[..2] + time[3..] + "00"
  {
    hide Split;
    assert date == date[..4] + ['-'] + (date[5..7] + ['-'] + date[8..]);
    assert '-' !in date[..4] && '-' !in date[5..7] && '-' !in date[8..];
    SplitCons(date[..4], '-', date[5..7] + ['-'] + date[8..]);
    SplitCons(date[5..7], '-', date[8..]);
    SplitNone(date[8..], '-');
    assert time == time[..2] + [':'] + time[3..];
    assert ':' !in time[..2] && ':' !in time[3..];
    SplitCons(time[..2], ':', time[3..]);
    SplitNone(time[3..], ':');
  }

  /** The printed time stamp holds its parts at fixed places. */
  lemma StampSlices(date: string, time: string)
    requires DateOk(date) && TimeOk(time)
    ensures var dt := FormatIcsDate(date, time);
      && |dt| == 15 && Clean(dt)
      && Slice(dt, 0, 4) + "-" + Slice(dt, 4, 6) + "-" + Slice(dt, 6, 8) == date
      && Slice(dt, 9, 11) + ":" + Slice(dt, 11, 13) == time
  {
    DateParts(date, time);
    hide FormatIcsDate;
    var dt := FormatIcsDate(date, time);
    StampClean(date, time);
    assert Slice(dt, 0, 4) == date[..4] && Slice(dt, 4, 6) == date[5..7] && Slice(dt, 6, 8) == date[8..];
    assert Slice(dt, 9, 11) == time[..2] && Slice(dt, 11, 13) == time[3..];
  }

  lemma StampClean(date: string, time: string)
    requires DateOk(date) && TimeOk(time)
    ensures Clean(date[..4] + date[5..7] + date[8..] + "T" + time[..2] + time[3..] + "00")
  {
  }

  lemma UidClean(ev: IcsEvent, stamp: string)
    requires Shaped(ev) && stamp != "" && AllDigits(stamp)
    ensures Clean(Uid(ev, stamp))
  {
    var uid := Uid(ev, stamp);
    assert uid[|uid| - 1] == stamp[|stamp| - 1] && stamp[|stamp| - 1] in stamp;
    assert '\n' !in stamp;
    DateNoLf(ev.date);
    TimeNoLf(ev.startTime);
  }

  lemma DateNoLf(date: string)
    requires DateOk(date)
    ensures '\n' !in date
  {
    assert date == date[..4] + ['-'] + (date[5..7] + ['-'] + date[8..]);
  }

  lemma TimeNoLf(time: string)
    requires TimeOk(time)
    ensures '\n' !in time
  {
    assert time == time[..2] + [':'] + time[3..];
  }

  lemma TrimKeeps(s: string)
    requires s != "" && !JsSpace(s[0]) && !JsSpace(s[|s| - 1])
    ensures JsTrim(s) == s
  {
  }

  /** A property line inside an event sets that property. */
  lemma PropertyStep(st: State, key: string, value: string)
    requires st.inEvent && key != "" && ':' !in key && !JsSpace(key[0]) && Clean(value)
    requires key != "BEGIN" && key != "END"
    ensures Step(st, Property(key, value)) == st.(current := st.current[key := value])
  {
    var line := Property(key, value);
    TrimKeeps(line);
    assert line == key + [':'] + value;
    IndexOfAfter(key, ':', value);
    KeyDiffers(key, value);
    hide JsTrim, IndexOf;
  }

  /** The text before the first colon of a line is determined by the line. */
  lemma KeyDiffers(key: string, value: string)
    requires ':' !in key
    ensures Property(key, value) == BEGIN_EVENT ==> key == "BEGIN"
    ensures Property(key, value) == END_EVENT ==> key == "END"
  {
    hide IndexOf;
    IndexOfAfter(key, ':', value);
    IndexOfAfter("BEGIN", ':', "VEVENT");
    IndexOfAfter("END", ':', "VEVENT");
    assert key + ":" + value == key + [':'] + value;
    assert "BEGIN" + [':'] + "VEVENT" == "BEGIN:VEVENT" && "END" + [':'] + "VEVENT" == "END:VEVENT";
  }

  lemma StepsOne(st: State, line: string)
    ensures Steps(st, [line]) == Step(st, line)
  {
    assert [line][..0] == [];
  }

  lemma StepsMore(st: State, lines: seq<string>, line: string)
    ensures Steps(st, lines + [line]) == Step(Steps(st, lines), line)
  {
    assert (lines + [line])[..|lines|] == lines;
  }

  lemma MarkersTrimmed()
    ensures JsTrim(BEGIN_EVENT) == BEGIN_EVENT && JsTrim(END_EVENT) == END_EVENT && BEGIN_EVENT != END_EVENT
  {
    hide JsTrim;
    TrimKeeps(BEGIN_EVENT);
    TrimKeeps(END_EVENT);
    assert BEGIN_EVENT[0] == 'B' && END_EVENT[0] == 'E';
  }

  lemma MarkerSteps(st: State)
    ensures Step(st, BEGIN_EVENT) == State(true, map[], st.events)
    ensures Step(st, END_EVENT)
      == State(false, st.current, st.events + match EventOf(st.current) case None => [] case Some(ev) => [ev])
  {
    hide JsTrim, EventOf, BEGIN_EVENT, END_EVENT;
    MarkersTrimmed();
  }

  /** The properties a printed event leaves in the parser. */
  function Properties(ev: IcsEvent, stamp: string): map<string, string> {
    var m := map["UID" := Uid(ev, stamp)]["DTSTART" := FormatIcsDate(ev.date, ev.startTime)]
               ["DTEND" := FormatIcsDate(ev.date, ev.endTime)]["SUMMARY" := ev.title];
    if ev.description != "" then m["DESCRIPTION" := ev.description] else m
  }

  lemma PropertiesBack(ev: IcsEvent, stamp: string)
    requires Shaped(ev) && ev.title != ""
    ensures EventOf(Properties(ev, stamp)) == Some(ev)
  {
    hide FormatIcsDate, Uid, Slice, Clean, Properties, Lookup;
    StampSlices(ev.date, ev.startTime);
    StampSlices(ev.date, ev.endTime);
    PropertyLookups(ev, stamp);
  }

  lemma PropertyLookups(ev: IcsEvent, stamp: string)
    ensures var m := Properties(ev, stamp);
      && Lookup(m, "DTSTART") == FormatIcsDate(ev.date, ev.startTime)
      && Lookup(m, "DTEND") == FormatIcsDate(ev.date, ev.endTime)
      && Lookup(m, "SUMMARY") == ev.title && Lookup(m, "DESCRIPTION") == ev.description
  {
    hide FormatIcsDate, Uid;
    assert "DTSTART"[0] == 'D' && "SUMMARY"[0] == 'S';
  }

  /** Inside an event, with the properties `m` so far. */
  ghost predicate Inside(st: State, lines: seq<string>, m: map<string, string>) {
    Steps(st, lines) == State(true, m, st.events)
  }

  lemma Push(st: State, lines: seq<string>, m: map<string, string>, key: string, value: string)
    requires Inside(st, lines, m)
    requires key != "" && ':' !in key && !JsSpace(key[0]) && Clean(value) && key != "BEGIN" && key != "END"
    ensures Inside(st, lines + [Property(key, value)], m[key := value])
  {
    hide Steps, Step, Property, Clean;
    PropertyStep(State(true, m, st.events), key, value);
    StepsMore(st, lines, Property(key, value));
  }

  lemma Opened(st: State)
    ensures Inside(st, [BEGIN_EVENT], map[])
  {
    hide Steps, Step, BEGIN_EVENT;
    MarkerSteps(st);
    StepsOne(st, BEGIN_EVENT);
  }

  lemma Closed(st: State, lines: seq<string>, ev: IcsEvent, stamp: string)
    requires Inside(st, lines, Properties(ev, stamp)) && Shaped(ev) && ev.title != ""
    ensures Steps(st, lines + [END_EVENT]) == State(false, Properties(ev, stamp), st.events + [ev])
  {
    hide Steps, Step, END_EVENT, Properties, EventOf, Shaped;
    PropertiesBack(ev, stamp);
    MarkerSteps(State(true, Properties(ev, stamp), st.events));
    StepsMore(st, lines, END_EVENT);
  }

  /** The lines of one printed event add exactly that event. */
  lemma BlockBack(st: State, ev: IcsEvent, stamp: string)
    requires Shaped(ev) && Printable(ev) && stamp != "" && AllDigits(stamp)
    ensures Steps(st, EventLines(ev, stamp)) == State(false, Properties(ev, stamp), st.events + [ev])
  {
    hide Steps, FormatIcsDate, Uid, Slice, Clean, EscapeLf, Inside, Property;
    UidClean(ev, stamp);
    StampSlices(ev.date, ev.startTime);
    StampSlices(ev.date, ev.endTime);
    var start, end := FormatIcsDate(ev.date, ev.startTime), FormatIcsDate(ev.date, ev.endTime);
    Opened(st);
    var l1 := [BEGIN_EVENT];
    var m1: map<string, string> := map[];
    Push(st, l1, m1, "UID", Uid(ev, stamp));
    var l2, m2 := l1 + [Property("UID", Uid(ev, stamp))], m1["UID" := Uid(ev, stamp)];
    Push(st, l2, m2, "DTSTART", start);
    var l3, m3 := l2 + [Property("DTSTART", start)], m2["DTSTART" := start];
    Push(st, l3, m3, "DTEND", end);
    var l4, m4 := l3 + [Property("DTEND", end)], m3["DTEND" := end];
    Push(st, l4, m4, "SUMMARY", ev.title);
    var l5, m5 := l4 + [Property("SUMMARY", ev.title)], m4["SUMMARY" := ev.title];
    FinishBlock(st, ev, stamp, l5, m5);
  }

  lemma FinishBlock(st: State, ev: IcsEvent, stamp: string, l: seq<string>, m: map<string, string>)
    requires Shaped(ev) && Printable(ev)
    requires Inside(st, l, m)
    requires l == [BEGIN_EVENT, Property("UID", Uid(ev, stamp)),
      Property("DTSTART", FormatIcsDate(ev.date, ev.startTime)), Property("DTEND", FormatIcsDate(ev.date, ev.endTime)),
      Property("SUMMARY", ev.title)]
    requires m == map["UID" := Uid(ev, stamp)]["DTSTART" := FormatIcsDate(ev.date, ev.startTime)]
      ["DTEND" := FormatIcsDate(ev.date, ev.endTime)]["SUMMARY" := ev.title]
    ensures Steps(st, EventLines(ev, stamp)) == State(false, Properties(ev, stamp), st.events + [ev])
  {
    hide Steps, FormatIcsDate, Uid, Clean, Inside, Property, Shaped;
    if ev.description != "" {
      CleanNoLf(ev.description);
      Push(st, l, m, "DESCRIPTION", ev.description);
      Closed(st, l + [Property("DESCRIPTION", ev.description)], ev, stamp);
    } else {
      assert l + [] == l;
      Closed(st, l, ev, stamp);
    }
  }

  lemma CleanNoLf(s: string)
    requires Clean(s)
    ensures '\n' !in s
  {
  }

  // ---------------------------------------------------------------- the whole calendar

  predicate StampsOk(stamps: seq<string>) {
    forall i | 0 <= i < |stamps| :: stamps[i] != "" && AllDigits(stamps[i])
  }

  predicate AllShaped(events: seq<IcsEvent>) { forall i | 0 <= i < |events| :: Shaped(events[i]) }

  predicate AllPrintable(events: seq<IcsEvent>) { forall i | 0 <= i < |events| :: Printable(events[i]) }

  /** All events of a calendar are added in order. */
  lemma {:induction false} BlocksBack(st: State, events: seq<IcsEvent>, stamps: seq<string>)
    requires |events| == |stamps| && AllShaped(events) && AllPrintable(events) && StampsOk(stamps)
    ensures Steps(st, AllEventLines(events, stamps)).events == st.events + events
    ensures events != [] ==> !Steps(st, AllEventLines(events, stamps)).inEvent
    ensures events == [] ==> Steps(st, AllEventLines(events, stamps)) == st
  {
    hide EventLines, Shaped, Printable, AllDigits, Step;
    if events != [] {
      var n := |events| - 1;
      BlocksBack(st, events[..n], stamps[..n]);
      var mid := Steps(st, AllEventLines(events[..n], stamps[..n]));
      BlockBack(mid, events[n], stamps[n]);
      StepsConcat(st, AllEventLines(events[..n], stamps[..n]), EventLines(events[n], stamps[n]));
      assert events == events[..n] + [events[n]];
      Assoc(st.events, events[..n], [events[n]]);
    }
  }

  /** Outside an event only the marker of a new event is noticed. */
  lemma OutsideStep(st: State, line: string)
    requires !st.inEvent && JsTrim(line) != BEGIN_EVENT && JsTrim(line) != END_EVENT
    ensures Step(st, line) == st
  {
    hide JsTrim, IndexOf, EventOf;
  }

  lemma PreambleSteps(st: State)
    requires !st.inEvent
    ensures Steps(st, PREAMBLE) == st
  {
    hide JsTrim;
    var p := PREAMBLE;
    PreambleTrimmed();
    forall i | 0 <= i < 5 ensures Step(st, p[i]) == st { OutsideStep(st, p[i]); }
    hide Step, PREAMBLE;
    Ignored(st, p);
  }

  lemma {:induction false} Ignored(st: State, lines: seq<string>)
    requires forall i | 0 <= i < |lines| :: Step(st, lines[i]) == st
    ensures Steps(st, lines) == st
  {
    hide Step;
    if lines != [] { Ignored(st, lines[..|lines| - 1]); }
  }

  lemma PreambleTrimmed()
    ensures forall i | 0 <= i < |PREAMBLE| :: JsTrim(PREAMBLE[i]) == PREAMBLE[i]
    ensures forall i | 0 <= i < |PREAMBLE| :: PREAMBLE[i] != BEGIN_EVENT && PREAMBLE[i] != END_EVENT
    ensures |PREAMBLE| == 5
  {
    hide JsTrim;
    var p := PREAMBLE;
    TrimKeeps(p[0]);
    TrimKeeps(p[1]);
    TrimKeeps(p[2]);
    TrimKeeps(p[3]);
    TrimKeeps(p[4]);
  }

  lemma LastLine(st: State)
    requires !st.inEvent
    ensures Step(st, "END:VCALENDAR") == st
  {
    hide JsTrim, Step;
    TrimKeeps("END:VCALENDAR");
    OutsideStep(st, "END:VCALENDAR");
  }

  predicate OneLine(s: string) { '\n' !in s }

  lemma EventLinesOneLine(ev: IcsEvent, stamp: string)
    requires Shaped(ev) && Printable(ev) && stamp != "" && AllDigits(stamp)
    ensures forall i | 0 <= i < |EventLines(ev, stamp)| :: OneLine(EventLines(ev, stamp)[i])
  {
    hide FormatIcsDate, Uid, Slice, EscapeLf, Property, Clean, OneLine, BEGIN_EVENT, END_EVENT;
    UidClean(ev, stamp);
    StampSlices(ev.date, ev.startTime);
    StampSlices(ev.date, ev.endTime);
    MarkersOneLine();
    PropertyOneLine("UID", Uid(ev, stamp));
    PropertyOneLine("DTSTART", FormatIcsDate(ev.date, ev.startTime));
    PropertyOneLine("DTEND", FormatIcsDate(ev.date, ev.endTime));
    PropertyOneLine("SUMMARY", ev.title);
    CleanNoLf(ev.description);
    PropertyOneLine("DESCRIPTION", ev.description);
  }

  lemma MarkersOneLine()
    ensures OneLine(BEGIN_EVENT) && OneLine(END_EVENT)
  {
  }

  lemma PropertyOneLine(key: string, value: string)
    requires '\n' !in key && Clean(value)
    ensures OneLine(Property(key, value))
  {
  }

  lemma {:induction false} AllLinesOneLine(events: seq<IcsEvent>, stamps: seq<string>)
    requires |events| == |stamps| && AllShaped(events) && AllPrintable(events) && StampsOk(stamps)
    ensures forall i | 0 <= i < |AllEventLines(events, stamps)| :: OneLine(AllEventLines(events, stamps)[i])
  {
    hide EventLines, Shaped, Printable, AllDigits, OneLine;
    if events != [] {
      var n := |events| - 1;
      AllLinesOneLine(events[..n], stamps[..n]);
      EventLinesOneLine(events[n], stamps[n]);
    }
  }

  lemma CalendarBack(events: seq<IcsEvent>, stamps: seq<string>)
    requires |events| == |stamps| && AllShaped(events) && AllPrintable(events) && StampsOk(stamps)
    ensures Parsed(Join(CalendarLines(events, stamps), "\r\n")) == events
  {
    hide AllEventLines, Step, Steps, SplitLines, Join, AllShaped, AllPrintable, StampsOk;
    var lines := CalendarLines(events, stamps);
    var st := State(false, map[], []);
    AllLinesOneLine(events, stamps);
    assert forall i | 0 <= i < 5 :: OneLine(PREAMBLE[i]);
    assert OneLine("END:VCALENDAR");
    LinesBack(lines);
    hide PREAMBLE;
    PreambleSteps(st);
    BlocksBack(st, events, stamps);
    StepsConcat(st, PREAMBLE, AllEventLines(events, stamps));
    var done := Steps(st, PREAMBLE + AllEventLines(events, stamps));
    LastLine(done);
    StepsMore(st, PREAMBLE + AllEventLines(events, stamps), "END:VCALENDAR");
    assert [] + events == events;
  }

  // ---------------------------------------------------------------- only printable events

  predicate CleanMap(m: map<string, string>) { forall k | k in m :: Clean(m[k]) }

  /** The parser only ever produces events that can be printed. */
  ghost predicate Produces(st: State) {
    CleanMap(st.current) && AllPrintable(st.events)
  }

  lemma TrimmedClean(s: string)
    requires '\n' !in s
    ensures Clean(JsTrim(s))
  {
  }

  lemma CleanTail(s: string, i: nat)
    requires Clean(s) && i <= |s|
    ensures Clean(s[i..])
  {
  }

  lemma EventPrintable(m: map<string, string>)
    requires CleanMap(m)
    ensures EventOf(m).Some? ==> Printable(EventOf(m).value)
  {
    hide Slice;
    assert Clean("Untitled") && Clean("");
    assert forall k :: Clean(Lookup(m, k));
  }

  lemma StepProduces(st: State, raw: string)
    requires Produces(st) && '\n' !in raw
    ensures Produces(Step(st, raw))
  {
    hide JsTrim, EventOf, Clean, Printable, IndexOf, BEGIN_EVENT, END_EVENT, CleanMap, AllPrintable;
    var line := JsTrim(raw);
    TrimmedClean(raw);
    EventPrintable(st.current);
    NoProperties();
    assert st.events + [] == st.events;
    if EventOf(st.current).Some? { OneMore(st.events, EventOf(st.current).value); }
    var colon := IndexOf(line, ':');
    if colon > 0 {
      CleanTail(line, colon + 1);
      CleanUpdate(st.current, line[..colon], line[colon + 1..]);
    }
  }

  lemma NoProperties()
    ensures CleanMap(map[])
  {
  }

  lemma OneMore(events: seq<IcsEvent>, ev: IcsEvent)
    requires AllPrintable(events) && Printable(ev)
    ensures AllPrintable(events + [ev])
  {
  }

  lemma CleanUpdate(m: map<string, string>, key: string, value: string)
    requires CleanMap(m) && Clean(value)
    ensures CleanMap(m[key := value])
  {
    hide Clean;
  }

  lemma {:induction false} StepsProduce(st: State, lines: seq<string>)
    requires Produces(st) && forall i | 0 <= i < |lines| :: '\n' !in lines[i]
    ensures Produces(Steps(st, lines))
  {
    hide Produces, Step;
    if lines != [] {
      var n := |lines| - 1;
      StepsProduce(st, lines[..n]);
      StepProduces(Steps(st, lines[..n]), lines[n]);
    }
  }

  lemma ParsedPrintable(content: string)
    ensures AllPrintable(Parsed(content))
  {
    hide Steps, Printable, Clean;
    var pieces := Split(content, '\n');
    var lines := SplitLines(content);
    forall i | 0 <= i < |lines| ensures '\n' !in lines[i] {
      assert pieces[i] in pieces && lines[i] <= pieces[i];
    }
    StepsProduce(State(false, map[], []), lines);
  }

  /** For events with proper dates and times: what was printed is parsed back as the same list
      of events if and only if every title is non-empty and every title and description is free
      of line feeds and trailing white space. */
  lemma RoundTripIff(events: seq<IcsEvent>, stamps: seq<string>)
    requires |events| == |stamps| && AllShaped(events) && StampsOk(stamps)
    ensures Parsed(Join(CalendarLines(events, stamps), "\r\n")) == events <==> AllPrintable(events)
  {
    hide Parsed, Join, CalendarLines, AllPrintable, AllShaped, StampsOk;
    if AllPrintable(events) { CalendarBack(events, stamps); }
    ParsedPrintable(Join(CalendarLines(events, stamps), "\r\n"));
  }

  // ---------------------------------------------------------------- the printed text

  /** A description is printed on one line: its pieces between line feeds with a backslash and an n
      in between. */
  lemma {:induction false} EscapeLfIs(s: string)
    ensures EscapeLf(s) == Join(Split(s, '\n'), "\\n")
    decreases |s|
  {
    hide Join, Split, EscapeLf;
    var i := IndexOf(s, '\n');
    if i < 0 {
      SplitNone(s, '\n');
      EscapeNothing(s);
      JoinSingle(s);
    } else {
      var a, b := s[..i], s[i + 1..];
      assert s == a + ['\n'] + b;
      EscapeLfIs(b);
      SplitCons(a, '\n', b);
      EscapeAround(a, b);
      JoinCons(a, Split(b, '\n'));
    }
  }

  lemma EscapeNothing(s: string)
    requires '\n' !in s
    ensures EscapeLf(s) == s
  {
  }

  lemma JoinSingle(s: string)
    ensures Join([s], "\\n") == s
  {
  }

  lemma JoinCons(a: string, rest: seq<string>)
    requires rest != []
    ensures Join([a] + rest, "\\n") == a + "\\n" + Join(rest, "\\n")
  {
    assert ([a] + rest)[1..] == rest;
  }

  lemma {:induction false} EscapeAround(a: string, b: string)
    requires '\n' !in a
    ensures EscapeLf(a + ['\n'] + b) == a + "\\n" + EscapeLf(b)
    decreases |a|
  {
    hide EscapeLf;
    if a == "" {
      EscapeCons('\n', b);
      assert "" + ['\n'] + b == ['\n'] + b && "" + "\\n" == "\\n";
    } else {
      var c, rest := a[0], a[1..] + ['\n'] + b;
      assert a + ['\n'] + b == [c] + rest && a == [c] + a[1..];
      EscapeAround(a[1..], b);
      EscapeCons(c, rest);
      Assoc([c], a[1..] + "\\n", EscapeLf(b));
      Assoc([c], a[1..], "\\n");
    }
  }

  lemma EscapeCons(c: char, s: string)
    ensures EscapeLf([c] + s) == (if c == '\n' then "\\n" else [c]) + EscapeLf(s)
  {
    assert ([c] + s)[1..] == s;
  }

  /** What an import gives back of an event: the description on one line. */
  function OneLined(ev: IcsEvent): IcsEvent { ev.(description := Join(Split(ev.description, '\n'), "\\n")) }

  function AllOneLined(events: seq<IcsEvent>): (r: seq<IcsEvent>)
    ensures |r| == |events| && forall i | 0 <= i < |events| :: r[i] == OneLined(events[i])
  {
    seq(|events|, i requires 0 <= i < |events| => OneLined(events[i]))
  }

  lemma SameLines(ev: IcsEvent, stamp: string)
    ensures EventLines(OneLined(ev), stamp) == EventLines(ev, stamp)
  {
    EscapeLfIs(ev.description);
    EscapeEmptyIff(ev.description);
    var d := EscapeLf(ev.description);
    assert EscapeLf(d) == d;
    hide EscapeLf, Join, Split, Dashed, FormatIcsDate;
  }

  lemma EscapeEmptyIff(s: string)
    ensures EscapeLf(s) == "" <==> s == ""
  {
  }

  lemma {:induction false} SameAllLines(events: seq<IcsEvent>, stamps: seq<string>)
    requires |events| == |stamps|
    ensures AllEventLines(AllOneLined(events), stamps) == AllEventLines(events, stamps)
    decreases |events|
  {
    hide EventLines, OneLined;
    if events != [] {
      var n := |events| - 1;
      SameAllLines(events[..n], stamps[..n]);
      assert AllOneLined(events)[..n] == AllOneLined(events[..n]);
      SameLines(events[n], stamps[n]);
    }
  }

  /** Line feeds in descriptions do not break the calendar: every event comes back, with its
      description on one line, if titles and one-line descriptions are printable. */
  lemma LineFeedsSurvive(events: seq<IcsEvent>, stamps: seq<string>)
    requires |events| == |stamps| && AllShaped(events) && StampsOk(stamps)
    requires AllPrintable(AllOneLined(events))
    ensures Parsed(Join(CalendarLines(events, stamps), "\r\n")) == AllOneLined(events)
  {
    hide EventLines, Parsed, Join, AllPrintable, AllEventLines, StampsOk, Split;
    SameAllLines(events, stamps);
    assert AllShaped(AllOneLined(events));
    CalendarBack(AllOneLined(events), stamps);
  }

  /** The frame of every printed calendar. */
  lemma CalendarFrame(events: seq<IcsEvent>, stamps: seq<string>)
    requires |events| == |stamps|
    ensures var lines := CalendarLines(events, stamps);
      && |lines| >= 6
      && lines[..5] == ["BEGIN:VCALENDAR", "VERSION:2.0", "PRODID:-//EcliPanel//Calendar//EN",
                        "CALSCALE:GREGORIAN", "METHOD:PUBLISH"]
      && lines[|lines| - 1] == "END:VCALENDAR"
  {
    hide AllEventLines;
    var lines, p := CalendarLines(events, stamps), PREAMBLE;
    assert lines[..5] == p;
  }

  /** The lines of an event, one by one. */
  lemma EventLinesAre(ev: IcsEvent, stamp: string)
    ensures var lines := EventLines(ev, stamp);
      && lines[0] == "BEGIN:VEVENT" && lines[|lines| - 1] == "END:VEVENT"
      && lines[1] == "UID:" + (ev.date + "-" + ev.startTime + "-" + Dashed(ev.title) + "-" + stamp)
      && lines[2] == "DTSTART:" + FormatIcsDate(ev.date, ev.startTime)
      && lines[3] == "DTEND:" + FormatIcsDate(ev.date, ev.endTime) && lines[4] == "SUMMARY:" + ev.title
      && (if ev.description == "" then |lines| == 6
          else |lines| == 7 && lines[5] == "DESCRIPTION:" + Join(Split(ev.description, '\n'), "\\n"))
  {
    EscapeLfIs(ev.description);
    hide EscapeLf, FormatIcsDate, Dashed, Join, Split;
  }

  /** What the parser makes of a block's properties: nothing without a start and an end; a missing
      or empty summary is called Untitled. */
  lemma EventOfMeans(m: map<string, string>)
    ensures EventOf(m).None? <==>
      "DTSTART" !in m || m["DTSTART"] == "" || "DTEND" !in m || m["DTEND"] == ""
    ensures EventOf(m).Some? ==>
      && EventOf(m).value.title == (if "SUMMARY" in m && m["SUMMARY"] != "" then m["SUMMARY"] else "Untitled")
      && EventOf(m).value.description == (if "DESCRIPTION" in m then m["DESCRIPTION"] else "")
  {
    hide Slice;
  }

  /** What a line does: the two markers open and close a block, and inside a block a line with a
      colon after its first character sets what stands before the first colon. */
  lemma StepMeans(st: State, raw: string, key: string, value: string)
    ensures JsTrim(raw) == "BEGIN:VEVENT" ==> Step(st, raw) == State(true, map[], st.events)
    ensures JsTrim(raw) == "END:VEVENT" ==>
      Step(st, raw) ==
        State(false, st.current, st.events + match EventOf(st.current) case None => [] case Some(e) => [e])
    ensures key != "" && ':' !in key && JsTrim(raw) !in {"BEGIN:VEVENT", "END:VEVENT"} ==>
      JsTrim(raw) == key + ":" + value ==>
        Step(st, raw) == if st.inEvent then st.(current := st.current[key := value]) else st
    ensures ':' !in JsTrim(raw) || JsTrim(raw)[0] == ':' ==> Step(st, raw) == st
  {
    hide JsTrim, EventOf;
    var line := JsTrim(raw);
    assert BEGIN_EVENT[5] == ':' && END_EVENT[3] == ':';
    if line == key + ":" + value && key != "" && ':' !in key {
      assert line == key + [':'] + value;
      IndexOfAfter(key, ':', value);
    }
    if ':' in line && line[0] == ':' { IndexOfUnique(line, ':', 0); }
  }
}
