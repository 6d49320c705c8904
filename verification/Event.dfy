// Editing the event of a calendar object. internal/ical/event.go
module Events {
  import opened Text
  import opened Escaping
  import opened Documents
  import opened Edits
  import opened Frame
  import opened Properties
  import Durations

  // How a time is written: as a date, a local date-time or a UTC date-time.
  datatype Layout = Date | Local | Utc

  // Times count nanoseconds from the zero time. The calendar that prints them
  // and the zones that are known come from outside.
  datatype Calendar = Calendar(format: (int, Layout) -> string, zones: set<string>)

  datatype Event = Event(summary: string, location: string, description: string,
                         start: int, end: int, allDay: bool, zone: string)

  predicate ValidEvent(e: Event, cal: Calendar) {
    Durations.TrimSpace(e.summary) != "" && e.start != 0 && e.start <= e.end &&
    (e.zone != "" && !e.allDay ==> e.zone in cal.zones)
  }

  // The parameters that describe a time, and its text.
  function TimeParams(e: Event): string {
    if e.allDay then ";VALUE=DATE" else if e.zone == "" then "" else ";TZID=" + e.zone
  }

  function TimeText(e: Event, t: int, cal: Calendar): string {
    cal.format(t, if e.allDay then Date else if e.zone == "" then Utc else Local)
  }

  // ------------------------------------------------------------------ sequence

  function Digits(s: string): (n: nat)
    ensures n <= |s| && AllDigits(s[..n])
  {
    if s != "" && IsDigit(s[0]) then 1 + Digits(s[1..]) else 0
  }

  // White space that does not end a line.
  predicate ScanBlank(c: char) { c == ' ' || (0x09 <= c as int <= 0x0D && c != '\n') }

  // Reading a decimal number off the front of a text.
  function ScanNumber(s: string): Option<int>
    decreases |s|
  {
    if s == "" then None
    else if ScanBlank(s[0]) then ScanNumber(s[1..])
    else
      var t := if s[0] == '-' || s[0] == '+' then s[1..] else s;
      var n := Digits(t);
      if n == 0 then None
      else
        var v: int := DecimalValue(t[..n]);
        Some(if s[0] == '-' then -v else v)
  }

  // A text that begins with a number: white space, a sign or none, digits, and
  // whatever is no digit behind them.
  predicate BeginsWith(s: string, blanks: string, sign: string, digits: string, rest: string) {
    s == blanks + (sign + (digits + rest)) &&
    (forall i | 0 <= i < |blanks| :: blanks[i] as int in {0x20, 0x09, 0x0B, 0x0C, 0x0D}) &&
    sign in {"", "+", "-"} && digits != "" && AllDigits(digits) && (rest != "" ==> !IsDigit(rest[0]))
  }

  function Signed(sign: string, digits: string): int
    requires AllDigits(digits)
  {
    var v: int := DecimalValue(digits);
    if sign == "-" then -v else v
  }

  // What is read is that number, and nothing is read of any other text.
  lemma ScansExactly(s: string, n: int)
    ensures ScanNumber(s) == Some(n) <==>
            exists blanks, sign, digits, rest :: BeginsWith(s, blanks, sign, digits, rest) && n == Signed(sign, digits)
  {
    if ScanNumber(s).Some? {
      var blanks, sign, digits, rest := ScanParts(s);
    }
    forall blanks, sign, digits, rest | BeginsWith(s, blanks, sign, digits, rest)
      ensures ScanNumber(s) == Some(Signed(sign, digits))
    {
      ScansPast(blanks, sign, digits, rest);
    }
  }

  lemma {:induction false} ScansPast(blanks: string, sign: string, digits: string, rest: string)
    requires BeginsWith(blanks + (sign + (digits + rest)), blanks, sign, digits, rest)
    ensures ScanNumber(blanks + (sign + (digits + rest))) == Some(Signed(sign, digits))
    decreases |blanks|
  {
    if blanks == "" {
      ScansSigned(sign, digits, rest);
      assert "" + (sign + (digits + rest)) == sign + (digits + rest);
    } else {
      assert (blanks + (sign + (digits + rest)))[1..] == blanks[1..] + (sign + (digits + rest));
      ScansPast(blanks[1..], sign, digits, rest);
    }
  }

  lemma ScansSigned(sign: string, digits: string, rest: string)
    requires sign in {"", "+", "-"} && digits != "" && AllDigits(digits) && (rest != "" ==> !IsDigit(rest[0]))
    ensures ScanNumber(sign + (digits + rest)) == Some(Signed(sign, digits))
  {
    var s := sign + (digits + rest);
    var t := digits + rest;
    DigitsBefore(digits, rest);
    assert digits[0] in digits && t[0] == digits[0];
    if sign == "" {
      assert s == t;
    } else {
      assert s[0] == sign[0] && s[1..] == t;
    }
    assert t[..|digits|] == digits;
  }

  lemma {:induction false} DigitsBefore(digits: string, rest: string)
    requires AllDigits(digits) && (rest != "" ==> !IsDigit(rest[0]))
    ensures Digits(digits + rest) == |digits|
  {
    if digits == "" {
      assert digits + rest == rest;
    } else {
      assert digits[0] in digits;
      assert (digits + rest)[1..] == digits[1..] + rest;
      DigitsBefore(digits[1..], rest);
    }
  }

  lemma {:induction false} ScanParts(s: string) returns (blanks: string, sign: string, digits: string, rest: string)
    requires ScanNumber(s).Some?
    ensures BeginsWith(s, blanks, sign, digits, rest) && ScanNumber(s) == Some(Signed(sign, digits))
    decreases |s|
  {
    if ScanBlank(s[0]) {
      var more;
      more, sign, digits, rest := ScanParts(s[1..]);
      blanks := [s[0]] + more;
      OneBlankMore(s, more, sign, digits, rest);
    } else {
      blanks := "";
      sign, digits, rest := ScanHere(s);
    }
  }

  lemma OneBlankMore(s: string, blanks: string, sign: string, digits: string, rest: string)
    requires s != "" && ScanBlank(s[0]) && BeginsWith(s[1..], blanks, sign, digits, rest)
    ensures BeginsWith(s, [s[0]] + blanks, sign, digits, rest)
  {
    assert s == [s[0]] + s[1..];
  }

  lemma ScanHere(s: string) returns (sign: string, digits: string, rest: string)
    requires s != "" && !ScanBlank(s[0]) && ScanNumber(s).Some?
    ensures BeginsWith(s, "", sign, digits, rest) && ScanNumber(s) == Some(Signed(sign, digits))
  {
    if s[0] == '-' || s[0] == '+' {
      sign := s[..1];
      digits, rest := TakeDigits(s[1..]);
      assert sign == [s[0]] && s == sign + s[1..];
    } else {
      sign := "";
      digits, rest := TakeDigits(s);
      assert s == "" + s;
    }
    assert "" + (sign + (digits + rest)) == sign + (digits + rest);
  }

  lemma TakeDigits(t: string) returns (digits: string, rest: string)
    ensures t == digits + rest && digits == t[..Digits(t)] && AllDigits(digits) && (rest != "" ==> !IsDigit(rest[0]))
  {
    digits, rest := t[..Digits(t)], t[Digits(t)..];
    DigitsEnd(t);
  }

  lemma {:induction false} DigitsEnd(s: string)
    ensures Digits(s) < |s| ==> !IsDigit(s[Digits(s)])
  {
    if s != "" && IsDigit(s[0]) {
      DigitsEnd(s[1..]);
    }
  }

  function NumberText(n: int): string { if n < 0 then "-" + Decimal(-n) else Decimal(n) }

  // The sequence number that follows the one a value holds.
  function NextSequence(current: string): int {
    if current == "" then 1
    else
      match ScanNumber(current)
      case Some(n) => n + 1
      case None => 1
  }

  lemma {:induction false} DigitsOfDecimal(s: string)
    requires AllDigits(s)
    ensures Digits(s) == |s|
  {
    if s != "" {
      assert s[0] in s;
      DigitsOfDecimal(s[1..]);
    }
  }

  lemma NumberReads(n: int)
    ensures NumberText(n) != "" && ScanNumber(NumberText(n)) == Some(n)
  {
    var d := Decimal(if n < 0 then -n else n);
    DecimalRoundTrip(if n < 0 then -n else n);
    DigitsOfDecimal(d);
    assert d[0] in d && d[..|d|] == d;
    if n < 0 {
      assert ("-" + d)[1..] == d;
    }
  }

  // Text without special octets passes through escaping unchanged.
  lemma {:induction false} EscapePlainText(s: string)
    requires forall i | 0 <= i < |s| :: IsDigit(s[i]) || s[i] == '-'
    ensures Escape(s) == s
  {
    if s != "" {
      EscapePlainText(s[1..]);
    }
  }

  // ------------------------------------------------------------------ the edit

  const EVENT_NAMES := {"SUMMARY", "LOCATION", "DESCRIPTION", "DTSTART", "DURATION", "DTEND", "DTSTAMP", "LAST-MODIFIED", "SEQUENCE"}

  function PutValue(e: Edit, name: string, value: string): Edit
    requires e.span.begin >= -1
    ensures PutValue(e, name, value).span.begin == e.span.begin
  {
    SetProperty(e.lines, e.span, name, value, None)
  }

  function PutWithParams(e: Edit, name: string, params: string, value: string): Edit
    requires e.span.begin >= -1
    ensures PutWithParams(e, name, params, value).span.begin == e.span.begin
  {
    SetProperty(e.lines, e.span, name, value, Some(params))
  }

  // The texts an event is written as.
  datatype Fields = Fields(summary: string, location: string, description: string, params: string,
                           start: string, end: string, duration: string, stamp: string)

  function FieldsOf(e: Event, now: int, cal: Calendar): Fields {
    Fields(Escape(e.summary), Escape(e.location), Escape(e.description), TimeParams(e),
           TimeText(e, e.start, cal), TimeText(e, e.end, cal),
           Escape(Durations.DurationText(e.end - e.start)), Escape(cal.format(now, Utc)))
  }

  lemma EndFields(e: Event, now: int, cal: Calendar, t: Fields, text: string)
    requires t == FieldsOf(e, now, cal) && text == Durations.DurationText(e.end - e.start)
    ensures t.duration == Escape(text) && t.params == TimeParams(e) && t.end == TimeText(e, e.end, cal)
  {
  }

  // What applying them to an object comes to, edit by edit.
  function Described(o: Edit, t: Fields): Edit
    requires o.span.begin >= -1
    ensures Described(o, t).span.begin == o.span.begin
  {
    PutWithParams(PutValue(PutValue(PutValue(o, "SUMMARY", t.summary), "LOCATION", t.location),
                           "DESCRIPTION", t.description),
                  "DTSTART", t.params, t.start)
  }

  function Ended(o: Edit, t: Fields): Edit
    requires o.span.begin >= -1
    ensures Ended(o, t).span.begin == o.span.begin
  {
    if FindFirst(o.lines, o.span, Upper("DURATION")).Some? then PutValue(o, "DURATION", t.duration)
    else PutWithParams(o, "DTEND", t.params, t.end)
  }

  function Stamped(o: Edit, t: Fields): Edit
    requires o.span.begin >= -1
    ensures Stamped(o, t).span.begin == o.span.begin
  {
    PutValue(PutValue(o, "DTSTAMP", t.stamp), "LAST-MODIFIED", t.stamp)
  }

  function SequenceText(current: string): string { Escape(NumberText(NextSequence(current))) }

  function Bumped(o: Edit): Edit
    requires o.span.begin >= -1
  {
    PutValue(o, "SEQUENCE", SequenceText(PropertyValue(o.lines, o.span, Upper("SEQUENCE"))))
  }

  function Applied(o: Edit, t: Fields): Edit
    requires o.span.begin >= -1
  {
    Bumped(Stamped(Ended(Described(o, t), t), t))
  }

  // A document and where the event lies in it.
  class CalendarObject {
    const doc: Document
    const event: SpanVar

    constructor (doc: Document, event: SpanVar)
      ensures this.doc == doc && this.event == event
    {
      this.doc := doc;
      this.event := event;
    }

    // Opens stored bytes: a calendar with an event in it. The first event is
    // the one that is edited.
    static method Open(raw: string) returns (o: Option<CalendarObject>)
      ensures o.Some? ==>
                o.value.doc.lines == ParseLines(raw) && IsFirstComponent(ParseLines(raw), "VEVENT", o.value.event.at) &&
                exists b: nat, e: nat :: IsComponent(ParseLines(raw), "VCALENDAR", b, e)
      ensures o.None? <==>
                (forall b: nat, e: nat :: !IsComponent(ParseLines(raw), "VCALENDAR", b, e)) ||
                (forall b: nat, e: nat :: !IsComponent(ParseLines(raw), "VEVENT", b, e))
    {
      var doc := new Document.Parse(raw);
      if |doc.lines| == 0 {
        return None;
      }
      var calendar := doc.Component("VCALENDAR");
      if calendar.None? {
        return None;
      }
      var found := doc.Component("VEVENT");
      if found.None? {
        return None;
      }
      var event := new SpanVar(found.value);
      var loaded := new CalendarObject(doc, event);
      return Some(loaded);
    }

    // Writes an event's fields, and stamps the object.
    method Apply(e: Event, now: int, cal: Calendar) returns (ok: bool)
      requires event.at.begin >= -1
      modifies doc, event
      ensures ok == ValidEvent(e, cal)
      ensures ok <==> !Durations.Blank(e.summary) && e.start != 0 && e.end >= e.start &&
                      (e.allDay || e.zone == "" || e.zone in cal.zones)
      ensures !ok ==> doc.lines == old(doc.lines) && event.at == old(event.at)
      ensures ok ==> Edit(doc.lines, event.at) == Applied(Edit(old(doc.lines), old(event.at)), FieldsOf(e, now, cal))
    {
      Durations.TrimSpaceExactly(e.summary);
      if !ValidEvent(e, cal) {
        return false;
      }
      ok := true;
      Write(e, now, cal, FieldsOf(e, now, cal));
    }

    method Write(e: Event, now: int, cal: Calendar, ghost t: Fields)
      requires event.at.begin >= -1 && t == FieldsOf(e, now, cal)
      modifies doc, event
      ensures Edit(doc.lines, event.at) == Applied(Edit(old(doc.lines), old(event.at)), t)
    {
      Describe(e, now, cal, t);
      End(e, now, cal, t);
      Stamp(e, now, cal, t);
      BumpSequence();
    }

    method Describe(e: Event, ghost now: int, cal: Calendar, ghost t: Fields)
      requires event.at.begin >= -1 && t == FieldsOf(e, now, cal)
      modifies doc, event
      ensures Edit(doc.lines, event.at) == Described(Edit(old(doc.lines), old(event.at)), t)
    {
      doc.Set(event, "SUMMARY", e.summary);
      doc.Set(event, "LOCATION", e.location);
      doc.Set(event, "DESCRIPTION", e.description);
      doc.SetWithParams(event, "DTSTART", TimeParams(e), TimeText(e, e.start, cal));
    }

    // An event that carries DURATION keeps that shape.
    method End(e: Event, ghost now: int, cal: Calendar, ghost t: Fields)
      requires event.at.begin >= -1 && t == FieldsOf(e, now, cal)
      modifies doc, event
      ensures Edit(doc.lines, event.at) == Ended(Edit(old(doc.lines), old(event.at)), t)
    {
      var text := Durations.FormatDuration(e.end - e.start);
      var params, end := TimeParams(e), TimeText(e, e.end, cal);
      EndFields(e, now, cal, t, text);
      WriteEnd(text, params, end, t);
    }

    method WriteEnd(duration: string, params: string, end: string, ghost t: Fields)
      requires event.at.begin >= -1
      requires t.duration == Escape(duration) && t.params == params && t.end == end
      modifies doc, event
      ensures Edit(doc.lines, event.at) == Ended(Edit(old(doc.lines), old(event.at)), t)
    {
      var found := doc.Find(event.at, "DURATION");
      if found.Some? {
        doc.Set(event, "DURATION", duration);
      } else {
        doc.SetWithParams(event, "DTEND", params, end);
      }
    }

    method Stamp(ghost e: Event, now: int, cal: Calendar, ghost t: Fields)
      requires event.at.begin >= -1 && t == FieldsOf(e, now, cal)
      modifies doc, event
      ensures Edit(doc.lines, event.at) == Stamped(Edit(old(doc.lines), old(event.at)), t)
    {
      doc.Set(event, "DTSTAMP", cal.format(now, Utc));
      doc.Set(event, "LAST-MODIFIED", cal.format(now, Utc));
    }

    // Tells a client that holds the event that this version supersedes it.
    method BumpSequence()
      requires event.at.begin >= -1
      modifies doc, event
      ensures Edit(doc.lines, event.at) == Bumped(Edit(old(doc.lines), old(event.at)))
    {
      var current := doc.Value(event.at, "SEQUENCE");
      var next := NextSequence(current);
      doc.Set(event, "SEQUENCE", NumberText(next));
    }
  }

  // ------------------------------------------------- what the edit amounts to

  // The writes, in the terms of a run. Which of DURATION and DTEND is written
  // and which number is stamped depend on the object alone.
  function DescribeOps(t: Fields, rest: seq<Op>): seq<Op> {
    [Put("SUMMARY", t.summary, None)] +
    ([Put("LOCATION", t.location, None)] +
     ([Put("DESCRIPTION", t.description, None)] +
      ([Put("DTSTART", t.start, Some(t.params))] + rest)))
  }

  function EndOp(o: Edit, t: Fields): Op
    requires o.span.begin >= -1
  {
    if FindFirst(o.lines, o.span, Upper("DURATION")).Some? then Put("DURATION", t.duration, None)
    else Put("DTEND", t.end, Some(t.params))
  }

  function SequenceOp(o: Edit): Op
    requires o.span.begin >= -1
  {
    Put("SEQUENCE", SequenceText(PropertyValue(o.lines, o.span, Upper("SEQUENCE"))), None)
  }

  function StampOps(t: Fields, rest: seq<Op>): seq<Op> {
    [Put("DTSTAMP", t.stamp, None)] + ([Put("LAST-MODIFIED", t.stamp, None)] + rest)
  }

  function EventOps(o: Edit, t: Fields): seq<Op>
    requires o.span.begin >= -1
  {
    DescribeOps(t, [EndOp(o, t)] + StampOps(t, [SequenceOp(o)] + []))
  }

  // What is known of one application: the scope of its edits, the names it may
  // remove, and the terminator of the document's first line.
  datatype Terms = Terms(scope: Scope, removed: set<string>, eol: string)

  // No line of this name shares a group with a line the form writes, and what
  // the form removes can go.
  predicate Untied(o: Edit, p: Terms, name: string)
    requires InRange(o.lines, o.span)
  {
    Free(Inside(o.lines, o.span), p.scope.names, p.removed, p.scope.groups, name)
  }

  // An object whose event can be edited property by property.
  predicate Editable(o: Edit, p: Terms) {
    Prepared(o, p.eol, p.scope) && p.scope.names == EVENT_NAMES && forall n | n in EVENT_NAMES :: Untied(o, p, n)
  }

  // A write the form makes.
  predicate FormOp(op: Op, p: Terms) {
    op.Put? && Upper(op.name) in EVENT_NAMES && (op.value == "" ==> Upper(op.name) in p.removed)
  }

  // Every empty text is one of a name that may be removed.
  predicate Foresees(p: Terms, t: Fields) {
    (t.summary == "" ==> "SUMMARY" in p.removed) && (t.location == "" ==> "LOCATION" in p.removed) &&
    (t.description == "" ==> "DESCRIPTION" in p.removed) && (t.start == "" ==> "DTSTART" in p.removed) &&
    (t.end == "" ==> "DTEND" in p.removed) && (t.duration == "" ==> "DURATION" in p.removed) &&
    (t.stamp == "" ==> {"DTSTAMP", "LAST-MODIFIED"} <= p.removed)
  }

  predicate Ready(o: Edit, t: Fields, p: Terms) { Editable(o, p) && Foresees(p, t) }

  // The object after a write, and its lines of another name.
  predicate StepKeeps(o: Edit, f: Edit, p: Terms, op: Op, name: string)
    requires Editable(o, p) && op.Put?
  {
    Within(o, op, p.scope) && Editable(f, p) && SameFrame(o, f, p.scope) && Untied(f, p, name) &&
    (name != Upper(op.name) ==> LinesOf(Inside(f.lines, f.span), name) == LinesOf(Inside(o.lines, o.span), name))
  }

  lemma PutStep(o: Edit, p: Terms, op: Op, name: string)
    requires Editable(o, p) && FormOp(op, p) && Untied(o, p, name)
    ensures StepKeeps(o, Apply(o, op), p, op, name)
  {
    PutReads(o, op, p.scope, p.removed, name, p.eol);
    forall n | n in EVENT_NAMES ensures Untied(Apply(o, op), p, n) {
      assert Untied(o, p, n);
      PutReads(o, op, p.scope, p.removed, n, p.eol);
    }
  }

  predicate FormRun(o: Edit, p: Terms, ops: seq<Op>) {
    RunWithin(o, ops, p.scope) && AllPuts(ops, EVENT_NAMES) && Removing(ops, p.removed)
  }

  lemma RunCons(o: Edit, p: Terms, op: Op, rest: seq<Op>)
    requires Editable(o, p) && FormOp(op, p) && FormRun(Apply(o, op), p, rest)
    ensures FormRun(o, p, [op] + rest) && Run(o, [op] + rest, p.scope) == Run(Apply(o, op), rest, p.scope)
  {
    assert ([op] + rest)[1..] == rest;
    assert "SUMMARY" in EVENT_NAMES && Untied(o, p, "SUMMARY");
    PutStep(o, p, op, "SUMMARY");
  }

  lemma UpperEventNames()
    ensures forall n | n in EVENT_NAMES :: Upper(n) == n
  {
    forall n | n in EVENT_NAMES ensures Upper(n) == n {
      if n == "SUMMARY" {
      } else if n == "LOCATION" {
      } else if n == "DESCRIPTION" {
      } else if n == "DTSTART" {
      } else if n == "DURATION" {
      } else if n == "DTEND" {
      } else if n == "DTSTAMP" {
      } else if n == "LAST-MODIFIED" {
      } else {
        assert n == "SEQUENCE";
      }
    }
  }

  // Describing the event leaves the lines of other names alone.
  lemma DescribeKeeps(o: Edit, t: Fields, p: Terms, name: string)
    requires Ready(o, t, p) && Untied(o, p, name) && name !in {"SUMMARY", "LOCATION", "DESCRIPTION", "DTSTART"}
    ensures var f := Described(o, t);
            Editable(f, p) && LinesOf(Inside(f.lines, f.span), name) == LinesOf(Inside(o.lines, o.span), name)
  {
    UpperEventNames();
    var op0, op1 := Put("SUMMARY", t.summary, None), Put("LOCATION", t.location, None);
    var op2, op3 := Put("DESCRIPTION", t.description, None), Put("DTSTART", t.start, Some(t.params));
    PutStep(o, p, op0, name);
    var o1 := Apply(o, op0);
    PutStep(o1, p, op1, name);
    var o2 := Apply(o1, op1);
    PutStep(o2, p, op2, name);
    PutStep(Apply(o2, op2), p, op3, name);
  }

  lemma DescribeRuns(o: Edit, t: Fields, p: Terms, rest: seq<Op>)
    requires Ready(o, t, p) && FormRun(Described(o, t), p, rest)
    ensures FormRun(o, p, DescribeOps(t, rest))
    ensures Run(o, DescribeOps(t, rest), p.scope) == Run(Described(o, t), rest, p.scope)
  {
    UpperEventNames();
    assert "SEQUENCE" in EVENT_NAMES && Untied(o, p, "SEQUENCE");
    var op0, op1 := Put("SUMMARY", t.summary, None), Put("LOCATION", t.location, None);
    var op2, op3 := Put("DESCRIPTION", t.description, None), Put("DTSTART", t.start, Some(t.params));
    PutStep(o, p, op0, "SEQUENCE");
    var o1 := Apply(o, op0);
    PutStep(o1, p, op1, "SEQUENCE");
    var o2 := Apply(o1, op1);
    PutStep(o2, p, op2, "SEQUENCE");
    var o3 := Apply(o2, op2);
    RunCons(o3, p, op3, rest);
    RunCons(o2, p, op2, [op3] + rest);
    RunCons(o1, p, op1, [op2] + ([op3] + rest));
    RunCons(o, p, op0, [op1] + ([op2] + ([op3] + rest)));
  }

  lemma FoundIffLines(lines: seq<Line>, span: Span, name: string)
    requires InRange(lines, span)
    ensures FindFirst(lines, span, name).Some? <==> LinesOf(Inside(lines, span), name) != []
  {
    var body := Inside(lines, span);
    FindIsInside(lines, span, name);
    match FindInside(body, name, 0)
    case Some(k) => SelectUpdate(body, ByName(name), k, body[k], |body|);
    case None => NoneBefore(body, name, |body|);
  }

  predicate SameLines(o: Edit, source: Edit, name: string)
    requires InRange(o.lines, o.span) && InRange(source.lines, source.span)
  {
    LinesOf(Inside(o.lines, o.span), name) == LinesOf(Inside(source.lines, source.span), name)
  }

  // The writes read off one object fit another that has the same lines for
  // them.
  lemma SameWrites(o: Edit, source: Edit, t: Fields)
    requires InRange(o.lines, o.span) && InRange(source.lines, source.span)
    ensures SameLines(o, source, "DURATION") ==> EndOp(o, t) == EndOp(source, t)
    ensures SameLines(o, source, "SEQUENCE") ==> SequenceOp(o) == SequenceOp(source)
  {
    UpperEventNames();
    FoundIffLines(o.lines, o.span, "DURATION");
    FoundIffLines(source.lines, source.span, "DURATION");
    ValueIsFirst(o.lines, o.span, "SEQUENCE");
    ValueIsFirst(source.lines, source.span, "SEQUENCE");
  }

  // No number is written as nothing.
  lemma SequenceIsText(current: string)
    ensures SequenceText(current) != ""
  {
    NumberReads(NextSequence(current));
    NumberIsPlain(NextSequence(current));
    EscapePlainText(NumberText(NextSequence(current)));
  }

  // The run from where the event has been described.
  lemma RestRuns(o: Edit, t: Fields, p: Terms, source: Edit)
    requires Ready(o, t, p) && InRange(source.lines, source.span)
    requires SameLines(o, source, "DURATION") && SameLines(o, source, "SEQUENCE")
    ensures var rest := [EndOp(source, t)] + StampOps(t, [SequenceOp(source)] + []);
            FormRun(o, p, rest) && Run(o, rest, p.scope) == Bumped(Stamped(Ended(o, t), t))
  {
    UpperEventNames();
    var op4, op7 := EndOp(source, t), SequenceOp(source);
    var op5, op6 := Put("DTSTAMP", t.stamp, None), Put("LAST-MODIFIED", t.stamp, None);
    SameWrites(o, source, t);
    assert "SEQUENCE" in EVENT_NAMES && Untied(o, p, "SEQUENCE");
    PutStep(o, p, op4, "SEQUENCE");
    var o5 := Apply(o, op4);
    PutStep(o5, p, op5, "SEQUENCE");
    var o6 := Apply(o5, op5);
    PutStep(o6, p, op6, "SEQUENCE");
    var o7 := Apply(o6, op6);
    SameWrites(o7, source, t);
    SequenceIsText(PropertyValue(source.lines, source.span, "SEQUENCE"));
    PutStep(o7, p, op7, "SEQUENCE");
    RunCons(o7, p, op7, []);
    RunCons(o6, p, op6, [op7] + []);
    RunCons(o5, p, op5, [op6] + ([op7] + []));
    RunCons(o, p, op4, [op5] + ([op6] + ([op7] + [])));
  }

  // Applying an event is a run of those eight writes.
  lemma AppliedIsRun(o: Edit, t: Fields, p: Terms)
    requires Ready(o, t, p)
    ensures FormRun(o, p, EventOps(o, t))
    ensures Applied(o, t) == Run(o, EventOps(o, t), p.scope)
  {
    assert "DURATION" in EVENT_NAMES && "SEQUENCE" in EVENT_NAMES;
    DescribeKeeps(o, t, p, "DURATION");
    DescribeKeeps(o, t, p, "SEQUENCE");
    RestRuns(Described(o, t), t, p, o);
    DescribeRuns(o, t, p, [EndOp(o, t)] + StampOps(t, [SequenceOp(o)] + []));
  }

  // What applying an event promises: every line that is not one of the nine
  // properties of the event itself keeps its bytes and its place, alarms and
  // overrides included, but for those in a group with one that was removed;
  // and of each name exactly the writes addressed to it have taken effect.
  lemma ApplyKeepsTheRest(o: Edit, t: Fields, p: Terms, name: string)
    requires Ready(o, t, p) && Untied(o, p, name)
    ensures var f := Applied(o, t);
            SameFrame(o, f, p.scope) && Opened(f, p.scope) &&
            FormRun(o, p, EventOps(o, t)) &&
            LinesOf(Inside(f.lines, f.span), name) ==
            PutLines(LinesOf(Inside(o.lines, o.span), name), EventOps(o, t), name, p.eol)
  {
    AppliedIsRun(o, t, p);
    RunReads(o, EventOps(o, t), p.scope, p.removed, name, p.eol);
  }

  // In bytes: what stands before the event and what stands behind it comes
  // back octet for octet, and inside it so does every line out of scope, in
  // order, the lines of nested components whatever they are called.
  lemma ApplyKeepsBytes(o: Edit, t: Fields, p: Terms)
    requires Ready(o, t, p)
    ensures SameBytesAround(o, Applied(o, t), p.scope, p.eol)
  {
    AppliedIsRun(o, t, p);
    RunKeepsBytes(o, EventOps(o, t), p.scope);
  }

  // A name the form does not write keeps its lines, where none shares a group
  // with one it does: a recurrence rule, its exceptions, attendees and vendor
  // properties among them.
  lemma OtherNamesKept(o: Edit, t: Fields, p: Terms, name: string)
    requires Ready(o, t, p) && Untied(o, p, name) && name !in EVENT_NAMES
    ensures var f := Applied(o, t);
            SameFrame(o, f, p.scope) && Opened(f, p.scope) &&
            LinesOf(Inside(f.lines, f.span), name) == LinesOf(Inside(o.lines, o.span), name)
  {
    ApplyKeepsTheRest(o, t, p, name);
    SkipAll(LinesOf(Inside(o.lines, o.span), name), EventOps(o, t), name, p.eol);
  }

  // An object that has none of the form's properties in a group can be edited
  // whatever is nested in its event and whatever the form leaves empty.
  lemma UngroupedIsReady(o: Edit, t: Fields, eol: string)
    requires o.span.begin >= 0 && Opened(o, Ungrouped(EVENT_NAMES)) && o.lines[0].eol == eol && eol != ""
    requires forall n | n in EVENT_NAMES :: GroupsOf(LinesOf(Inside(o.lines, o.span), n)) == {}
    ensures Ready(o, t, Terms(Ungrouped(EVENT_NAMES), EVENT_NAMES, eol))
    ensures forall name :: Untied(o, Terms(Ungrouped(EVENT_NAMES), EVENT_NAMES, eol), name)
  {
    var p, body := Terms(Ungrouped(EVENT_NAMES), EVENT_NAMES, eol), Inside(o.lines, o.span);
    forall name, n | n in EVENT_NAMES ensures FreeOf(body, n, p.removed, {}, name) {
      NoGroupsSingly(LinesOf(body, n));
    }
    forall name ensures Untied(o, p, name) {
      assert forall n | n in EVENT_NAMES :: FreeOf(body, n, p.removed, {}, name);
    }
  }

  lemma NoGroupsSingly(lines: seq<Line>)
    requires GroupsOf(lines) == {}
    ensures Singly(lines)
  {
    GroupsHold(lines);
  }

  lemma GroupsHold(lines: seq<Line>)
    ensures forall i | 0 <= i < |lines| :: lines[i].parts.group in GroupsOf(lines) + {""}
  {
  }

  lemma {:induction false} SkipAll(lines: seq<Line>, ops: seq<Op>, name: string, eol: string)
    requires AllPuts(ops, EVENT_NAMES) && name !in EVENT_NAMES
    ensures PutLines(lines, ops, name, eol) == lines
    decreases |ops|
  {
    if ops != [] {
      assert Upper(ops[0].name) in EVENT_NAMES;
      SkipAll(lines, ops[1..], name, eol);
    }
  }

  predicate Puts(ops: seq<Op>) { forall i | 0 <= i < |ops| :: ops[i].Put? }

  // A name that one write of a run is addressed to is written by that one.
  lemma {:induction false} PutLinesOne(lines: seq<Line>, ops: seq<Op>, k: nat, name: string, eol: string)
    requires Puts(ops) && k < |ops| && Upper(ops[k].name) == name
    requires forall i | 0 <= i < |ops| && i != k :: Upper(ops[i].name) != name
    ensures PutLines(lines, ops, name, eol) == PutLine(lines, ops[k].name, ops[k].value, ops[k].newParams, eol)
    decreases |ops|
  {
    if k == 0 {
      PutLinesNone(PutLine(lines, ops[0].name, ops[0].value, ops[0].newParams, eol), ops[1..], name, eol);
    } else {
      PutLinesOne(lines, ops[1..], k - 1, name, eol);
    }
  }

  lemma {:induction false} PutLinesNone(lines: seq<Line>, ops: seq<Op>, name: string, eol: string)
    requires Puts(ops) && forall i | 0 <= i < |ops| :: Upper(ops[i].name) != name
    ensures PutLines(lines, ops, name, eol) == lines
    decreases |ops|
  {
    if ops != [] {
      PutLinesNone(lines, ops[1..], name, eol);
    }
  }

  // Of the writes, one is addressed to each name but for DURATION and DTEND,
  // of which one is written.
  function WriteTo(o: Edit, t: Fields, name: string): Op
    requires o.span.begin >= -1
  {
    match WriteAt(name)
    case 0 => Put("SUMMARY", t.summary, None)
    case 1 => Put("LOCATION", t.location, None)
    case 2 => Put("DESCRIPTION", t.description, None)
    case 3 => Put("DTSTART", t.start, Some(t.params))
    case 4 => EndOp(o, t)
    case 5 => Put("DTSTAMP", t.stamp, None)
    case 6 => Put("LAST-MODIFIED", t.stamp, None)
    case _ => SequenceOp(o)
  }

  function WriteAt(name: string): nat {
    if name == "SUMMARY" then 0
    else if name == "LOCATION" then 1
    else if name == "DESCRIPTION" then 2
    else if name == "DTSTART" then 3
    else if name == "DTSTAMP" then 5
    else if name == "LAST-MODIFIED" then 6
    else if name == "SEQUENCE" then 7
    else 4
  }

  // A name of the form that is written.
  predicate IsWritten(o: Edit, t: Fields, name: string)
    requires o.span.begin >= -1
  {
    name in EVENT_NAMES && (name in {"DURATION", "DTEND"} ==> EndOp(o, t).name == name)
  }

  lemma EventOpsAt(o: Edit, t: Fields)
    requires o.span.begin >= -1
    ensures var ops := EventOps(o, t);
            |ops| == 8 && ops[0] == Put("SUMMARY", t.summary, None) && ops[1] == Put("LOCATION", t.location, None) &&
            ops[2] == Put("DESCRIPTION", t.description, None) && ops[3] == Put("DTSTART", t.start, Some(t.params)) &&
            ops[4] == EndOp(o, t) && ops[5] == Put("DTSTAMP", t.stamp, None) &&
            ops[6] == Put("LAST-MODIFIED", t.stamp, None) && ops[7] == SequenceOp(o)
  {
  }

  lemma OneWriteEach(lines: seq<Line>, o: Edit, t: Fields, name: string, eol: string)
    requires o.span.begin >= -1 && IsWritten(o, t, name)
    ensures Puts(EventOps(o, t))
    ensures var op := WriteTo(o, t, name);
            PutLines(lines, EventOps(o, t), name, eol) == PutLine(lines, op.name, op.value, op.newParams, eol)
  {
    EventOpsNamed(o, t, name);
    PutLinesOne(lines, EventOps(o, t), WriteAt(name), name, eol);
  }

  lemma EventOpsNamed(o: Edit, t: Fields, name: string)
    requires o.span.begin >= -1 && IsWritten(o, t, name)
    ensures var ops, k := EventOps(o, t), WriteAt(name);
            Puts(ops) && k < |ops| && ops[k] == WriteTo(o, t, name) && Upper(ops[k].name) == name &&
            forall i | 0 <= i < |ops| && i != k :: Upper(ops[i].name) != name
  {
    var ops := EventOps(o, t);
    OpIsWrite(o, t, name);
    forall i | 0 <= i < 8 ensures ops[i].Put? && Upper(ops[i].name) == ops[i].name && WriteAt(ops[i].name) == i {
      OpNamed(o, t, i);
      WriteAtOwn(ops[i].name, i, EndOp(o, t).name);
    }
    OpNamed(o, t, WriteAt(name));
    NamedByPlace(name, EndOp(o, t).name, ops[WriteAt(name)].name);
  }

  lemma OpNamed(o: Edit, t: Fields, i: nat)
    requires o.span.begin >= -1 && i < 8
    ensures |EventOps(o, t)| == 8 && EventOps(o, t)[i].Put? && NamedAt(EventOps(o, t)[i].name, i, EndOp(o, t).name)
  {
    EventOpsAt(o, t);
  }

  lemma OpIsWrite(o: Edit, t: Fields, name: string)
    requires o.span.begin >= -1
    ensures WriteAt(name) < |EventOps(o, t)| == 8 && EventOps(o, t)[WriteAt(name)] == WriteTo(o, t, name)
  {
    EventOpsAt(o, t);
  }

  // The names by their place in the run.
  predicate NamedAt(name: string, i: nat, end: string) {
    match i
    case 0 => name == "SUMMARY"
    case 1 => name == "LOCATION"
    case 2 => name == "DESCRIPTION"
    case 3 => name == "DTSTART"
    case 4 => name == end && name in {"DURATION", "DTEND"}
    case 5 => name == "DTSTAMP"
    case 6 => name == "LAST-MODIFIED"
    case _ => name == "SEQUENCE"
  }

  lemma WriteAtOwn(name: string, i: nat, end: string)
    requires i < 8 && NamedAt(name, i, end)
    ensures Upper(name) == name && WriteAt(name) == i && name in EVENT_NAMES
  {
    UpperEventNames();
  }

  lemma NamedByPlace(name: string, end: string, written: string)
    requires name in EVENT_NAMES && (name in {"DURATION", "DTEND"} ==> end == name)
    requires NamedAt(written, WriteAt(name), end)
    ensures written == name
  {
  }

  lemma ReadsWrite(o: Edit, t: Fields, p: Terms, name: string)
    requires Ready(o, t, p) && IsWritten(o, t, name)
    requires WriteTo(o, t, name).value != ""
    ensures var f := Applied(o, t);
            PropertyValue(f.lines, f.span, name) == Unescape(WriteTo(o, t, name).value)
  {
    assert Untied(o, p, name);
    ApplyKeepsTheRest(o, t, p, name);
    OneWriteEach(LinesOf(Inside(o.lines, o.span), name), o, t, name, p.eol);
    var f := Applied(o, t);
    ValueIsFirst(f.lines, f.span, name);
  }

  // The text of a description is then the one that was given, if and only if
  // it is not empty or its removal leaves no other one to be read.
  lemma TextShown(o: Edit, t: Fields, p: Terms, name: string, text: string)
    requires Ready(o, t, p) && name in {"SUMMARY", "LOCATION", "DESCRIPTION"}
    requires WriteTo(o, t, name).value == Escape(text) && '\r' !in text
    ensures var f, own := Applied(o, t), LinesOf(Inside(o.lines, o.span), name);
            PropertyValue(f.lines, f.span, name) == text <==>
            text != "" || |own| <= 1 || Unescape(own[1].parts.value) == ""
  {
    UnescapeEscape(text);
    if text != "" {
      ReadsWrite(o, t, p, name);
    } else {
      TextCleared(o, t, p, name);
    }
  }

  lemma TextCleared(o: Edit, t: Fields, p: Terms, name: string)
    requires Ready(o, t, p) && name in {"SUMMARY", "LOCATION", "DESCRIPTION"} && WriteTo(o, t, name).value == ""
    ensures var f, own := Applied(o, t), LinesOf(Inside(o.lines, o.span), name);
            PropertyValue(f.lines, f.span, name) == if |own| <= 1 then "" else Unescape(own[1].parts.value)
  {
    var own := LinesOf(Inside(o.lines, o.span), name);
    assert Untied(o, p, name) && FreeOf(Inside(o.lines, o.span), name, p.removed, p.scope.groups, name);
    ApplyKeepsTheRest(o, t, p, name);
    OneWriteEach(own, o, t, name, p.eol);
    FirstGoes(own, WriteTo(o, t, name).name, None, p.eol);
    ValueIsFirst(Applied(o, t).lines, Applied(o, t).span, name);
  }

  // Every client that holds the event learns that this version supersedes it:
  // the number it reads is one more than the one the object carried, or one.
  lemma SequenceSupersedes(o: Edit, t: Fields, p: Terms)
    requires Ready(o, t, p)
    ensures var f, was := Applied(o, t), PropertyValue(o.lines, o.span, "SEQUENCE");
            Supersedes(was, PropertyValue(f.lines, f.span, "SEQUENCE"))
  {
    var current := PropertyValue(o.lines, o.span, "SEQUENCE");
    SequenceIsText(current);
    NextReads(current);
    SequenceWrite(o, t);
    ReadsWrite(o, t, p, "SEQUENCE");
  }

  // A sequence number follows another, or it is the first.
  ghost predicate Supersedes(was: string, now: string) { now in Following(was) }

  ghost function Following(was: string): iset<string> {
    match ScanNumber(was)
    case Some(n) => iset now: string | ScanNumber(now) == Some(n + 1)
    case None => iset now: string | ScanNumber(now) == Some(1)
  }

  lemma NextReads(was: string)
    ensures Unescape(SequenceText(was)) in Following(was)
  {
    NumberSurvives(NextSequence(was));
  }

  // What a line says of a time, for a date, for a time of a zone, and for an
  // instant.
  predicate TellsTime(l: Line, e: Event, x: int, cal: Calendar) {
    if e.allDay then l.parts.params == ";VALUE=DATE" && l.parts.value == cal.format(x, Date)
    else if e.zone != "" then l.parts.params == ";TZID=" + e.zone && l.parts.value == cal.format(x, Local)
    else l.parts.params == "" && l.parts.value == cal.format(x, Utc)
  }

  // The event's own lines of a name, the first of which tells this time.
  predicate FirstTells(f: Edit, name: string, e: Event, x: int, cal: Calendar)
    requires InRange(f.lines, f.span)
  {
    var own := LinesOf(Inside(f.lines, f.span), name);
    own != [] && TellsTime(own[0], e, x, cal)
  }

  // Applied to an object, an event is the event the object then holds: its
  // title, its start and its end, which stands in DTEND unless the object was
  // sized by DURATION, and the moment it was stamped.
  lemma EventIsWritten(o: Edit, e: Event, now: int, cal: Calendar, p: Terms)
    requires Ready(o, FieldsOf(e, now, cal), p)
    requires e.summary != "" && '\r' !in e.summary
    requires forall x: int, layout: Layout :: cal.format(x, layout) != "" && '\r' !in cal.format(x, layout)
    ensures var f := Applied(o, FieldsOf(e, now, cal));
            InRange(f.lines, f.span) && PropertyValue(f.lines, f.span, "SUMMARY") == e.summary &&
            FirstTells(f, "DTSTART", e, e.start, cal) &&
            (FindFirst(o.lines, o.span, "DURATION").None? ==> FirstTells(f, "DTEND", e, e.end, cal)) &&
            PropertyValue(f.lines, f.span, "DTSTAMP") == cal.format(now, Utc) &&
            PropertyValue(f.lines, f.span, "LAST-MODIFIED") == cal.format(now, Utc)
  {
    var t := FieldsOf(e, now, cal);
    SummaryRead(o, t, p, e.summary);
    StartTold(o, e, now, cal, p);
    if FindFirst(o.lines, o.span, "DURATION").None? {
      EndTold(o, e, now, cal, p);
    }
    StampRead(o, t, p, "DTSTAMP", cal.format(now, Utc));
    StampRead(o, t, p, "LAST-MODIFIED", cal.format(now, Utc));
  }

  // Its place and its description are those that were given.
  lemma PlaceIsWritten(o: Edit, e: Event, now: int, cal: Calendar, p: Terms)
    requires Ready(o, FieldsOf(e, now, cal), p) && e.location != "" && '\r' !in e.location
    ensures var f := Applied(o, FieldsOf(e, now, cal)); PropertyValue(f.lines, f.span, "LOCATION") == e.location
  {
    DetailRead(o, FieldsOf(e, now, cal), p, "LOCATION", e.location);
  }

  lemma DescriptionIsWritten(o: Edit, e: Event, now: int, cal: Calendar, p: Terms)
    requires Ready(o, FieldsOf(e, now, cal), p) && e.description != "" && '\r' !in e.description
    ensures var f := Applied(o, FieldsOf(e, now, cal)); PropertyValue(f.lines, f.span, "DESCRIPTION") == e.description
  {
    DetailRead(o, FieldsOf(e, now, cal), p, "DESCRIPTION", e.description);
  }

  lemma DetailRead(o: Edit, t: Fields, p: Terms, name: string, text: string)
    requires Ready(o, t, p) && text != "" && '\r' !in text
    requires (name == "LOCATION" && t.location == Escape(text)) || (name == "DESCRIPTION" && t.description == Escape(text))
    ensures var f := Applied(o, t); PropertyValue(f.lines, f.span, name) == text
  {
    assert WriteTo(o, t, name).value == Escape(text);
    TextShown(o, t, p, name, text);
  }

  lemma SummaryRead(o: Edit, t: Fields, p: Terms, text: string)
    requires Ready(o, t, p) && t.summary == Escape(text) && text != "" && '\r' !in text
    ensures var f := Applied(o, t); PropertyValue(f.lines, f.span, "SUMMARY") == text
  {
    assert WriteTo(o, t, "SUMMARY").value == Escape(text);
    TextShown(o, t, p, "SUMMARY", text);
  }

  lemma StampRead(o: Edit, t: Fields, p: Terms, name: string, text: string)
    requires Ready(o, t, p) && name in {"DTSTAMP", "LAST-MODIFIED"} && t.stamp == Escape(text) && text != "" && '\r' !in text
    ensures var f := Applied(o, t); PropertyValue(f.lines, f.span, name) == text
  {
    UnescapeEscape(text);
    StampWrite(o, t, name);
    ReadsWrite(o, t, p, name);
  }

  lemma StampWrite(o: Edit, t: Fields, name: string)
    requires o.span.begin >= -1 && name in {"DTSTAMP", "LAST-MODIFIED"}
    ensures IsWritten(o, t, name) && WriteTo(o, t, name).value == t.stamp
  {
  }

  lemma LineWritten(o: Edit, t: Fields, p: Terms, name: string)
    requires Ready(o, t, p) && IsWritten(o, t, name) && WriteTo(o, t, name).value != "" && WriteTo(o, t, name).newParams.Some?
    ensures var f, op := Applied(o, t), WriteTo(o, t, name);
            InRange(f.lines, f.span) &&
            var own := LinesOf(Inside(f.lines, f.span), name);
            own != [] && own[0].parts.params == op.newParams.value && own[0].parts.value == op.value
  {
    assert Untied(o, p, name);
    ApplyKeepsTheRest(o, t, p, name);
    OneWriteEach(LinesOf(Inside(o.lines, o.span), name), o, t, name, p.eol);
  }

  lemma StartTold(o: Edit, e: Event, now: int, cal: Calendar, p: Terms)
    requires Ready(o, FieldsOf(e, now, cal), p)
    requires forall x: int, layout: Layout :: cal.format(x, layout) != ""
    ensures var f := Applied(o, FieldsOf(e, now, cal)); InRange(f.lines, f.span) && FirstTells(f, "DTSTART", e, e.start, cal)
  {
    TimeTold(e, e.start, cal);
    StartWrite(o, FieldsOf(e, now, cal));
    LineWritten(o, FieldsOf(e, now, cal), p, "DTSTART");
  }

  lemma StartWrite(o: Edit, t: Fields)
    requires o.span.begin >= -1
    ensures IsWritten(o, t, "DTSTART") && WriteTo(o, t, "DTSTART") == Put("DTSTART", t.start, Some(t.params))
  {
  }

  lemma TimeTold(e: Event, x: int, cal: Calendar)
    requires forall y: int, layout: Layout :: cal.format(y, layout) != ""
    ensures TimeText(e, x, cal) != ""
    ensures forall l: Line | l.parts.params == TimeParams(e) && l.parts.value == TimeText(e, x, cal) :: TellsTime(l, e, x, cal)
  {
  }

  lemma EndTold(o: Edit, e: Event, now: int, cal: Calendar, p: Terms)
    requires Ready(o, FieldsOf(e, now, cal), p) && FindFirst(o.lines, o.span, "DURATION").None?
    requires forall x: int, layout: Layout :: cal.format(x, layout) != ""
    ensures var f := Applied(o, FieldsOf(e, now, cal)); InRange(f.lines, f.span) && FirstTells(f, "DTEND", e, e.end, cal)
  {
    TimeTold(e, e.end, cal);
    EndWrite(o, FieldsOf(e, now, cal));
    LineWritten(o, FieldsOf(e, now, cal), p, "DTEND");
  }

  lemma EndWrite(o: Edit, t: Fields)
    requires o.span.begin >= -1 && FindFirst(o.lines, o.span, "DURATION").None?
    ensures IsWritten(o, t, "DTEND") && WriteTo(o, t, "DTEND") == Put("DTEND", t.end, Some(t.params))
  {
    UpperEventNames();
  }

  lemma SequenceWrite(o: Edit, t: Fields)
    requires o.span.begin >= -1
    ensures IsWritten(o, t, "SEQUENCE")
    ensures WriteTo(o, t, "SEQUENCE").value == SequenceText(PropertyValue(o.lines, o.span, "SEQUENCE"))
  {
    UpperEventNames();
  }

  lemma NumberSurvives(n: int)
    ensures ScanNumber(Unescape(Escape(NumberText(n)))) == Some(n)
  {
    NumberReads(n);
    NumberIsPlain(n);
    UnescapeEscape(NumberText(n));
  }

  lemma NumberIsPlain(n: int)
    ensures forall i | 0 <= i < |NumberText(n)| :: IsDigit(NumberText(n)[i]) || NumberText(n)[i] == '-'
    ensures '\r' !in NumberText(n)
  {
    var d := Decimal(if n < 0 then -n else n);
    assert forall i | 0 <= i < |d| :: d[i] in d;
  }

  // An event that was sized by its duration still is, and the duration it
  // reads is the one that was asked for, to the second.
  lemma DurationShapeKept(o: Edit, t: Fields, length: int, p: Terms)
    requires Ready(o, t, p) && FindFirst(o.lines, o.span, "DURATION").Some?
    requires t.duration == Escape(Durations.DurationText(length))
    requires length >= 0 && length % Durations.SECOND == 0
    ensures var f := Applied(o, t);
            Durations.ParseDuration(PropertyValue(f.lines, f.span, "DURATION")) == Durations.Ok(length)
  {
    Durations.DurationRoundTrip(length);
    DurationIsPlain(length);
    TextRead(o, t, Durations.DurationText(length), p);
  }

  lemma TextRead(o: Edit, t: Fields, text: string, p: Terms)
    requires Ready(o, t, p) && FindFirst(o.lines, o.span, "DURATION").Some?
    requires t.duration == Escape(text) && '\r' !in text && text != ""
    ensures var f := Applied(o, t);
            PropertyValue(f.lines, f.span, "DURATION") == text
  {
    UnescapeEscape(text);
    DurationWrite(o, t);
    ReadsWrite(o, t, p, "DURATION");
  }

  lemma DurationWrite(o: Edit, t: Fields)
    requires o.span.begin >= -1 && FindFirst(o.lines, o.span, "DURATION").Some?
    ensures IsWritten(o, t, "DURATION") && WriteTo(o, t, "DURATION").value == t.duration
  {
    UpperEventNames();
  }

  lemma DurationIsPlain(d: int)
    ensures '\r' !in Durations.DurationText(d) && Durations.DurationText(d) != ""
  {
    UnitIsPlain();
  }

  lemma UnitIsPlain()
    ensures forall n: nat, c: char | c != '\r' :: '\r' !in Durations.Unit(n, c)
  {
    assert !IsDigit('\r');
  }
}
