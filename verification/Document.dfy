// The ordered content lines of one object, and the edits made to them.
// internal/contentline/contentline.go
module Documents {
  import opened Text
  import opened Lines
  import Folding
  import Escaping

  // One logical line: the text it was read from, its terminator, and its
  // parts. A dirty or added line is rebuilt from its parts when written.
  datatype Line = Line(raw: string, eol: string, parts: Parts, dirty: bool, added: bool)

  // Where a component begins and ends among the lines.
  datatype Span = Span(begin: int, end: int)

  // A span that edits move along with the lines it delimits.
  class SpanVar {
    var at: Span

    constructor (span: Span)
      ensures at == span
    {
      at := span;
    }
  }

  // ------------------------------------------------------- reading and writing

  function ReadLine(text: string, eol: string): Line {
    Line(text, eol, SplitLine(Unfold(text)), false, false)
  }

  function ParseLines(s: string): seq<Line>
    decreases |s|
  {
    if s == "" then []
    else
      LogicalLineSound(s);
      var l := LogicalLine(s);
      [ReadLine(l.text, l.eol)] + ParseLines(l.rest)
  }

  const CRLF := "\r\n"

  function FirstEol(lines: seq<Line>): string {
    if lines == [] then CRLF
    else if lines[0].eol != "" then lines[0].eol
    else FirstEol(lines[1..])
  }

  predicate Edited(l: Line) { l.dirty || l.added }

  function LineText(l: Line, eol: string): string {
    if Edited(l) then Folding.Fold(Rebuild(l.parts), eol) else l.raw
  }

  function LineBytes(l: Line, eol: string): string {
    LineText(l, eol) + if l.eol == "" then eol else l.eol
  }

  function Render(lines: seq<Line>, eol: string): string {
    if lines == [] then "" else LineBytes(lines[0], eol) + Render(lines[1..], eol)
  }

  function DocumentBytes(lines: seq<Line>): string { Render(lines, FirstEol(lines)) }

  // Writing the document ends: fold advances on every line it rebuilds.
  predicate Writable(lines: seq<Line>) {
    forall l | l in lines && Edited(l) :: Folding.FoldTerminates(Rebuild(l.parts))
  }

  // ------------------------------------------------------------------ brackets

  predicate IsBegin(l: Line) { l.parts.name in {"BEGIN"} }

  predicate IsEnd(l: Line) { l.parts.name in {"END"} }

  function Bracket(l: Line): int {
    if IsBegin(l) then 1 else if IsEnd(l) then -1 else 0
  }

  // BEGIN lines less END lines among lines[from..to].
  function Depth(lines: seq<Line>, from: nat, to: nat): int
    requires to <= |lines|
  {
    if from >= to then 0 else Depth(lines, from, to - 1) + Bracket(lines[to - 1])
  }

  // The line at i belongs to the component directly.
  predicate Contains(lines: seq<Line>, span: Span, i: nat)
    requires span.begin >= -1 && i <= |lines|
  {
    span.begin < i < span.end && Depth(lines, span.begin + 1, i) == 0
  }

  // A BEGIN line and the END line that closes it, by the depth counter: the
  // depth inside never falls below zero and is zero at the END.
  predicate Matched(lines: seq<Line>, b: nat, e: nat) {
    b < e < |lines| && IsBegin(lines[b]) && IsEnd(lines[e]) &&
    Depth(lines, b + 1, e) == 0 && NeverCloses(lines, b, e)
  }

  predicate NeverCloses(lines: seq<Line>, b: nat, e: nat)
    requires e <= |lines|
  {
    forall k | b < k <= e :: DepthSince(lines, b, k) >= 0
  }

  // The depth at k counted from behind the line b.
  function DepthSince(lines: seq<Line>, b: nat, k: nat): int
    requires k <= |lines|
  {
    Depth(lines, b + 1, k)
  }

  predicate IsComponent(lines: seq<Line>, name: string, b: nat, e: nat) {
    Matched(lines, b, e) && EqualFold(lines[b].parts.value, name)
  }

  // ------------------------------------------------------------------- edits

  function FindFrom(lines: seq<Line>, span: Span, name: string, i: nat): (r: Option<nat>)
    requires -1 <= span.begin < i
    ensures r.Some? ==> i <= r.value < |lines| && lines[r.value].parts.name == name && Contains(lines, span, r.value)
    ensures r.Some? ==> forall k | i <= k < r.value :: !(lines[k].parts.name == name && Contains(lines, span, k))
    ensures r.None? ==> forall k | i <= k < |lines| :: !(lines[k].parts.name == name && Contains(lines, span, k))
    decreases |lines| - i
  {
    if i >= |lines| then None
    else if i < span.end && lines[i].parts.name == name && Contains(lines, span, i) then Some(i)
    else FindFrom(lines, span, name, i + 1)
  }

  function FindFirst(lines: seq<Line>, span: Span, name: string): Option<nat>
    requires span.begin >= -1
  {
    FindFrom(lines, span, name, span.begin + 1)
  }

  function EditLine(l: Line, params: string, value: string): Line {
    l.(parts := l.parts.(params := params, value := value), dirty := true)
  }

  function NewLine(name: string, params: string, value: string): Line {
    Line("", "", Parts("", Upper(name), params, value), false, true)
  }

  datatype Edit = Edit(lines: seq<Line>, span: Span)

  function InsertLine(lines: seq<Line>, span: Span, l: Line): Edit {
    var at := if span.end < 0 || span.end > |lines| then |lines| else span.end;
    Edit(lines[..at] + [l.(eol := FirstEol(lines), added := true)] + lines[at..],
         span.(end := span.end + 1))
  }

  // The lines a group's removal has kept when it comes to line j. They stand
  // at the front of the array that contains goes on reading; behind them the
  // cells still hold what they held.
  function Compacted(lines: seq<Line>, span: Span, group: string, j: nat): (kept: seq<Line>)
    requires j <= |lines| && span.begin >= -1
    ensures |kept| <= j
  {
    if j == 0 then []
    else
      var kept := Compacted(lines, span, group, j - 1);
      if lines[j - 1].parts.group == group && Contains(kept + lines[|kept|..], span, j - 1) then kept
      else kept + [lines[j - 1]]
  }

  function RemoveLine(lines: seq<Line>, span: Span, i: nat): Edit
    requires i < |lines| && span.begin >= -1
  {
    var group := lines[i].parts.group;
    if group == "" then Edit(lines[..i] + lines[i + 1..], span.(end := span.end - 1))
    else
      var kept := Compacted(lines, span, group, |lines|);
      Edit(kept, span.(end := span.end - (|lines| - |kept|)))
  }

  // Writing a property: the first one of that name is rewritten in place, or
  // removed when the value is empty; an absent one is added before the END.
  // Without params a line keeps the parameters it has.
  function SetProperty(lines: seq<Line>, span: Span, name: string, value: string, params: Option<string>): Edit
    requires span.begin >= -1
  {
    match FindFirst(lines, span, Upper(name))
    case Some(i) =>
      if value == "" then RemoveLine(lines, span, i)
      else Edit(lines[i := EditLine(lines[i], if params.Some? then params.value else lines[i].parts.params, value)], span)
    case None =>
      if value == "" then Edit(lines, span)
      else InsertLine(lines, span, NewLine(name, if params.Some? then params.value else "", value))
  }

  class Document {
    var lines: seq<Line>

    // Every line is split as its unfolded text says.
    constructor Parse(raw: string)
      ensures lines == ParseLines(raw)
      ensures forall l | l in lines :: IsRead(l)
    {
      lines := [];
      new;
      var s := raw;
      while |s| > 0
        invariant lines + ParseLines(s) == ParseLines(raw)
        decreases |s|
      {
        var text, eol, rest := NextLogicalLine(s);
        ParsedOne(lines, s, text, eol, rest);
        s := rest;
        if text == "" && eol == "" {
          break;
        }
        var u := UnfoldText(text);
        var group, name, params, value := SplitContentLine(u);
        lines := lines + [Line(text, eol, Parts(group, name, params, value), false, false)];
      }
      ParsedSays(raw);
    }

    // One pass over the lines, each as it was read or rebuilt and folded.
    method Bytes() returns (out: string)
      requires Writable(lines)
      ensures out == DocumentBytes(lines)
    {
      out := "";
      var i := 0;
      ghost var all := FirstEol(lines);
      assert lines[0..] == lines;
      while i < |lines|
        invariant 0 <= i <= |lines|
        invariant out + Render(lines[i..], all) == DocumentBytes(lines)
      {
        var bytes := LineOut(i);
        RenderNext(out, lines, i, all);
        out := out + bytes;
        i := i + 1;
      }
    }

    method LineOut(i: nat) returns (bytes: string)
      requires i < |lines| && Writable(lines)
      ensures bytes == LineBytes(lines[i], FirstEol(lines))
    {
      var l := lines[i];
      bytes := l.raw;
      if l.dirty || l.added {
        var eol := EOL();
        bytes := Folding.FoldLine(Rebuild(l.parts), eol);
      }
      var eol := l.eol;
      if eol == "" {
        eol := EOL();
      }
      bytes := bytes + eol;
    }

    // The terminator the document already uses, CRLF when it has none.
    method EOL() returns (eol: string)
      ensures eol == FirstEol(lines)
      ensures (eol == "\r\n" && forall l | l in lines :: l.eol == "") ||
              exists i :: 0 <= i < |lines| && lines[i].eol == eol != "" && forall j | 0 <= j < i :: lines[j].eol == ""
    {
      var i := 0;
      assert lines[0..] == lines;
      while i < |lines|
        invariant 0 <= i <= |lines|
        invariant FirstEol(lines[i..]) == FirstEol(lines)
        invariant forall j | 0 <= j < i :: lines[j].eol == ""
      {
        if lines[i].eol != "" {
          return lines[i].eol;
        }
        assert lines[i..][1..] == lines[i + 1..];
        i := i + 1;
      }
      return CRLF;
    }

    // Every component with this name, in the order they open.
    method Components(name: string) returns (spans: seq<Span>)
      ensures forall b: nat, e: nat :: Span(b, e) in spans <==> IsComponent(lines, name, b, e)
      ensures forall s | s in spans :: 0 <= s.begin < s.end < |lines|
      ensures InOpeningOrder(spans)
    {
      var wanted := Upper(name);
      UpperTwice(name);
      spans := [];
      var open: seq<nat> := [];
      var i := 0;
      while i < |lines|
        invariant 0 <= i <= |lines|
        invariant Scanned(lines, name, open, spans, i)
      {
        open, spans := Scan(name, wanted, open, spans, i);
        i := i + 1;
      }
      SortedComponents(lines, name, spans);
      spans := SortByBegin(spans);
    }

    // One line of the scan: a BEGIN is pushed, and an END pops the BEGIN it
    // closes, if any is open.
    method Scan(name: string, wanted: string, open: seq<nat>, spans: seq<Span>, i: nat)
      returns (nowOpen: seq<nat>, nowSpans: seq<Span>)
      requires wanted == Upper(name) && i < |lines| && Scanned(lines, name, open, spans, i)
      ensures Scanned(lines, name, nowOpen, nowSpans, i + 1)
    {
      nowOpen, nowSpans := open, spans;
      if IsBegin(lines[i]) {
        OpenStep(lines, name, open, spans, i);
        nowOpen := open + [i];
      } else if IsEnd(lines[i]) {
        if |open| == 0 {
          StrayStep(lines, name, open, spans, i);
        } else {
          var begin := open[|open| - 1];
          CloseStep(lines, name, open, spans, i);
          nowOpen := open[..|open| - 1];
          if EqualFold(lines[begin].parts.value, wanted) {
            nowSpans := spans + [Span(begin, i)];
          }
        }
      } else {
        PlainStep(lines, name, open, spans, i);
      }
    }

    // Nested components count: the one whose BEGIN comes first is found.
    method Component(name: string) returns (span: Option<Span>)
      ensures span.Some? ==> IsFirstComponent(lines, name, span.value)
      ensures span.None? ==> forall b: nat, e: nat :: !IsComponent(lines, name, b, e)
    {
      var spans := Components(name);
      if |spans| == 0 {
        return None;
      }
      assert spans[0] in spans;
      return Some(spans[0]);
    }

    method DirectlyInside(span: Span, i: nat) returns (inside: bool)
      requires span.begin >= -1 && i <= |lines|
      ensures inside == Contains(lines, span, i)
    {
      inside := CountsInside(lines, span, i);
    }

    method Find(span: Span, name: string) returns (r: Option<nat>)
      requires span.begin >= -1
      ensures r == FindFirst(lines, span, Upper(name))
    {
      var wanted := Upper(name);
      var i := span.begin + 1;
      while i < span.end && i < |lines|
        invariant span.begin < i
        invariant FindFrom(lines, span, wanted, i) == FindFirst(lines, span, wanted)
        decreases |lines| - i
      {
        if lines[i].parts.name == wanted {
          var inside := DirectlyInside(span, i);
          if inside {
            return Some(i);
          }
        }
        i := i + 1;
      }
      return None;
    }

    // What the first line of the name says.
    method Value(span: Span, name: string) returns (value: string)
      requires span.begin >= -1
      ensures value == PropertyValue(lines, span, Upper(name))
    {
      var i := Find(span, name);
      if i.None? {
        return "";
      }
      value := Escaping.UnescapeValue(lines[i.value].parts.value);
    }

    method Set(span: SpanVar, name: string, value: string)
      requires span.at.begin >= -1
      modifies this, span
      ensures Edit(lines, span.at) == SetProperty(old(lines), old(span.at), name, Escaping.Escape(value), None)
    {
      Write(span, name, Escaping.Escape(value), None);
    }

    method SetRaw(span: SpanVar, name: string, value: string)
      requires span.at.begin >= -1
      modifies this, span
      ensures Edit(lines, span.at) == SetProperty(old(lines), old(span.at), name, value, None)
    {
      Write(span, name, value, None);
    }

    method SetWithParams(span: SpanVar, name: string, params: string, value: string)
      requires span.at.begin >= -1
      modifies this, span
      ensures Edit(lines, span.at) == SetProperty(old(lines), old(span.at), name, value, Some(params))
    {
      Write(span, name, value, Some(params));
    }

    method Write(span: SpanVar, name: string, value: string, params: Option<string>)
      requires span.at.begin >= -1
      modifies this, span
      ensures Edit(lines, span.at) == SetProperty(old(lines), old(span.at), name, value, params)
    {
      var found := Find(span.at, name);
      if found.Some? {
        var i := found.value;
        if value == "" {
          Remove(span, i);
          return;
        }
        var p := lines[i].parts.params;
        if params.Some? {
          p := params.value;
        }
        Replace(i, p, value);
        return;
      }
      if value == "" {
        return;
      }
      var p := "";
      if params.Some? {
        p := params.value;
      }
      Insert(span, NewLine(name, p, value));
    }

    // The new line comes last inside the component, whose END moves down.
    method Insert(span: SpanVar, l: Line)
      modifies this, span
      ensures Edit(lines, span.at) == InsertLine(old(lines), old(span.at), l)
    {
      var eol := EOL();
      var at := span.at.end;
      if at < 0 || at > |lines| {
        at := |lines|;
      }
      lines := lines[..at] + [l.(eol := eol, added := true)] + lines[at..];
      span.at := span.at.(end := span.at.end + 1);
    }

    // A line of no group goes alone. For a grouped one the lines are compacted
    // in place, while the test for membership goes on reading them.
    method Remove(span: SpanVar, i: nat)
      requires i < |lines| && span.at.begin >= -1
      modifies this, span
      ensures Edit(lines, span.at) == RemoveLine(old(lines), old(span.at), i)
    {
      var group := lines[i].parts.group;
      if group == "" {
        lines := lines[..i] + lines[i + 1..];
        span.at := span.at.(end := span.at.end - 1);
        return;
      }
      var a := new Line[|lines|](k requires 0 <= k < |lines| reads this => lines[k]);
      assert a[..] == lines;
      var kept := CompactInPlace(a, span.at, group);
      var removed := a.Length - kept;
      lines := a[..kept];
      span.at := span.at.(end := span.at.end - removed);
    }

    method Replace(i: nat, params: string, value: string)
      requires i < |lines|
      modifies this
      ensures lines == old(lines)[i := EditLine(old(lines)[i], params, value)]
    {
      lines := lines[i := lines[i].(parts := lines[i].parts.(params := params, value := value), dirty := true)];
    }

    // Where the lines of the name are.
    method FindAll(span: Span, name: string) returns (out: seq<nat>)
      requires span.begin >= -1
      ensures out == Occurrences(lines, span, Upper(name), span.begin + 1)
    {
      var wanted := Upper(name);
      out := [];
      var i := span.begin + 1;
      while i < span.end && i < |lines|
        invariant span.begin < i
        invariant out + Occurrences(lines, span, wanted, i) == Occurrences(lines, span, wanted, span.begin + 1)
        decreases |lines| - i
      {
        if lines[i].parts.name == wanted {
          var inside := DirectlyInside(span, i);
          if inside {
            assert out + ([i] + Occurrences(lines, span, wanted, i + 1)) == (out + [i]) + Occurrences(lines, span, wanted, i + 1);
            out := out + [i];
          }
        }
        i := i + 1;
      }
      NoOccurrences(lines, span, wanted, i);
    }
  }

  // The loop that shifts the kept lines to the front of the array.
  method CompactInPlace(a: array<Line>, span: Span, group: string) returns (kept: nat)
    requires span.begin >= -1
    modifies a
    ensures kept <= a.Length && a[..kept] == Compacted(old(a[..]), span, group, a.Length)
  {
    ghost var was := a[..];
    kept := 0;
    var j := 0;
    while j < a.Length
      invariant kept <= j <= a.Length
      invariant HalfDone(a[..], Compacted(was, span, group, j), was, kept)
    {
      HalfDoneReads(a[..], Compacted(was, span, group, j), was, kept, j);
      var l := a[j];
      var inside := CountsInside(a[..], span, j);
      if !(l.parts.group == group && inside) {
        ghost var before := a[..];
        a[kept] := l;
        HalfDoneKeeps(before, Compacted(was, span, group, j), was, kept, l);
        assert a[..] == before[kept := l];
        kept := kept + 1;
      }
      j := j + 1;
    }
  }

  // The array half way: what has been kept, and the cells not yet overwritten.
  predicate HalfDone(a: seq<Line>, front: seq<Line>, was: seq<Line>, kept: nat) {
    kept <= |a| && |a| == |was| && a[..kept] == front && a[kept..] == was[kept..]
  }

  lemma HalfDoneReads(a: seq<Line>, front: seq<Line>, was: seq<Line>, kept: nat, j: nat)
    requires HalfDone(a, front, was, kept) && kept <= j < |a|
    ensures a == front + was[|front|..] && a[j] == was[j]
  {
    assert a[j] == a[kept..][j - kept];
  }

  lemma HalfDoneKeeps(a: seq<Line>, front: seq<Line>, was: seq<Line>, kept: nat, l: Line)
    requires HalfDone(a, front, was, kept) && kept < |a|
    ensures HalfDone(a[kept := l], front + [l], was, kept + 1)
  {
    assert a[kept..][1..] == a[kept + 1..] && was[kept..][1..] == was[kept + 1..];
  }

  // The counting loop of contains, over any slice of lines.
  method CountsInside(lines: seq<Line>, span: Span, i: nat) returns (inside: bool)
    requires span.begin >= -1 && i <= |lines|
    ensures inside == Contains(lines, span, i)
  {
    if i <= span.begin || i >= span.end {
      return false;
    }
    var depth := 0;
    var j := span.begin + 1;
    while j < i
      invariant span.begin < j <= i
      invariant depth == Depth(lines, span.begin + 1, j)
    {
      if IsBegin(lines[j]) {
        depth := depth + 1;
      } else if IsEnd(lines[j]) {
        depth := depth - 1;
      }
      j := j + 1;
    }
    return depth == 0;
  }

  function PropertyValue(lines: seq<Line>, span: Span, name: string): string
    requires span.begin >= -1
  {
    match FindFirst(lines, span, name)
    case Some(i) => Escaping.Unescape(lines[i].parts.value)
    case None => ""
  }

  function Occurrences(lines: seq<Line>, span: Span, name: string, i: nat): seq<nat>
    requires -1 <= span.begin < i
    decreases |lines| - i
  {
    if i >= |lines| then []
    else if lines[i].parts.name == name && Contains(lines, span, i) then [i] + Occurrences(lines, span, name, i + 1)
    else Occurrences(lines, span, name, i + 1)
  }

  lemma {:induction false} NoOccurrences(lines: seq<Line>, span: Span, name: string, i: nat)
    requires -1 <= span.begin < i && (i >= span.end || i >= |lines|)
    ensures Occurrences(lines, span, name, i) == []
    decreases |lines| - i
  {
    if i < |lines| {
      NoOccurrences(lines, span, name, i + 1);
    }
  }

  ghost predicate IsFirstComponent(lines: seq<Line>, name: string, span: Span) {
    0 <= span.begin && 0 <= span.end && IsComponent(lines, name, span.begin, span.end) &&
    forall b: nat, e: nat | IsComponent(lines, name, b, e) :: span.begin <= b
  }

  // The first line of the name that belongs to the component.
  predicate IsFirst(lines: seq<Line>, span: Span, name: string, i: nat)
    requires span.begin >= -1
  {
    i < |lines| && lines[i].parts.name == name && Contains(lines, span, i) &&
    forall k | 0 <= k < i :: !(lines[k].parts.name == name && Contains(lines, span, k))
  }

  // Writing a text over a line leaves its place, its group and its name, and
  // its parameters unless there are new ones; every other line is as it was.
  lemma WriteOver(lines: seq<Line>, span: Span, name: string, value: string, params: Option<string>, i: nat)
    requires span.begin >= -1 && value != "" && IsFirst(lines, span, Upper(name), i)
    ensures var e, p := SetProperty(lines, span, name, value, params), lines[i].parts;
            e.span == span && |e.lines| == |lines| && (forall k | 0 <= k < |lines| && k != i :: e.lines[k] == lines[k]) &&
            e.lines[i] == Line(lines[i].raw, lines[i].eol,
                               Parts(p.group, p.name, if params == None then p.params else params.value, value),
                               true, lines[i].added)
  {
  }

  // Writing nothing over a line of no group takes just that line away.
  lemma WriteAway(lines: seq<Line>, span: Span, name: string, params: Option<string>, i: nat)
    requires span.begin >= -1 && IsFirst(lines, span, Upper(name), i) && lines[i].parts.group == ""
    ensures var e := SetProperty(lines, span, name, "", params);
            e.lines == lines[..i] + lines[i + 1..] && e.span == Span(span.begin, span.end - 1)
  {
  }

  // Where there is no line of the name a text is added last, behind every line
  // of the component, and nothing is written for none.
  lemma WriteAnew(lines: seq<Line>, span: Span, name: string, value: string, params: Option<string>)
    requires -1 <= span.begin < span.end <= |lines|
    requires forall k | 0 <= k < |lines| && Contains(lines, span, k) :: lines[k].parts.name != Upper(name)
    ensures var e := SetProperty(lines, span, name, value, params);
            if value == "" then e == Edit(lines, span)
            else
              var own := Parts("", Upper(name), if params == None then "" else params.value, value);
              e.lines == lines[..span.end] + [Line("", FirstEol(lines), own, false, true)] + lines[span.end..] &&
              e.span == Span(span.begin, span.end + 1)
  {
  }

  // A line as it is read: unfolded, its text says what its parts hold.
  ghost predicate IsRead(l: Line) { Says(Unfold(l.raw), l.parts) && !l.dirty && !l.added }

  lemma {:induction false} ParsedSays(s: string)
    ensures forall l | l in ParseLines(s) :: IsRead(l)
    decreases |s|
  {
    if s != "" {
      ParseStep(s);
      var l := LogicalLine(s);
      SplitSays(Unfold(l.text));
      ParsedSays(l.rest);
    }
  }

  lemma ParseStep(s: string)
    requires s != ""
    ensures var l := LogicalLine(s);
            (l.text != "" || l.eol != "") && |l.rest| < |s| &&
            ParseLines(s) == [ReadLine(l.text, l.eol)] + ParseLines(l.rest)
  {
    LogicalLineSound(s);
  }

  lemma ParsedOne(before: seq<Line>, s: string, text: string, eol: string, rest: string)
    requires s != "" && Logical(text, eol, rest) == LogicalLine(s)
    ensures (text != "" || eol != "") && |rest| < |s|
    ensures before + ParseLines(s) == (before + [ReadLine(text, eol)]) + ParseLines(rest)
  {
    ParseStep(s);
  }

  lemma RenderNext(before: string, lines: seq<Line>, i: nat, eol: string)
    requires i < |lines|
    ensures before + Render(lines[i..], eol) == (before + LineBytes(lines[i], eol)) + Render(lines[i + 1..], eol)
  {
    assert lines[i..][1..] == lines[i + 1..] && lines[i..][0] == lines[i];
  }

  // ------------------------------------------------------------ the stack scan

  // The stack holds the BEGIN lines still open before i, outermost first:
  // the depth since each one is the number of those opened after it.
  ghost predicate OpenStack(lines: seq<Line>, open: seq<nat>, i: nat)
    requires i <= |lines|
  {
    (forall p | 0 <= p < |open| ::
       open[p] < i && IsBegin(lines[open[p]]) &&
       Depth(lines, open[p] + 1, i) == |open| - 1 - p && NeverCloses(lines, open[p], i))
  }

  // Every other BEGIN line before i has been closed before i.
  ghost predicate ClosedBefore(lines: seq<Line>, open: seq<nat>, i: nat)
    requires i <= |lines|
  {
    forall b | 0 <= b < i && IsBegin(lines[b]) && b !in open ::
      exists e :: b < e < i && Matched(lines, b, e)
  }

  ghost predicate Recorded(lines: seq<Line>, name: string, spans: seq<Span>, i: nat) {
    (forall b: nat, e: nat :: Span(b, e) in spans <==> IsComponent(lines, name, b, e) && e < i) &&
    (forall s | s in spans :: 0 <= s.begin < s.end < |lines|) &&
    (forall j, k | 0 <= j < k < |spans| :: spans[j] != spans[k])
  }

  ghost predicate Scanned(lines: seq<Line>, name: string, open: seq<nat>, spans: seq<Span>, i: nat) {
    i <= |lines| && OpenStack(lines, open, i) && ClosedBefore(lines, open, i) && Recorded(lines, name, spans, i)
  }

  lemma OpenStep(lines: seq<Line>, name: string, open: seq<nat>, spans: seq<Span>, i: nat)
    requires Scanned(lines, name, open, spans, i) && i < |lines| && IsBegin(lines[i])
    ensures Scanned(lines, name, open + [i], spans, i + 1)
  {
    PushStack(lines, open, i);
  }

  lemma PlainStep(lines: seq<Line>, name: string, open: seq<nat>, spans: seq<Span>, i: nat)
    requires Scanned(lines, name, open, spans, i) && i < |lines| && Bracket(lines[i]) == 0
    ensures Scanned(lines, name, open, spans, i + 1)
  {
  }

  lemma CloseStep(lines: seq<Line>, name: string, open: seq<nat>, spans: seq<Span>, i: nat)
    requires Scanned(lines, name, open, spans, i) && i < |lines| && IsEnd(lines[i]) && |open| > 0
    ensures var b := open[|open| - 1];
            Scanned(lines, name, open[..|open| - 1],
                    if EqualFold(lines[b].parts.value, Upper(name)) then spans + [Span(b, i)] else spans, i + 1)
  {
    PopStack(lines, open, i);
    RecordSpan(lines, name, spans, open[|open| - 1], i);
  }

  lemma PushStack(lines: seq<Line>, open: seq<nat>, i: nat)
    requires i < |lines| && IsBegin(lines[i])
    requires OpenStack(lines, open, i) && ClosedBefore(lines, open, i)
    ensures OpenStack(lines, open + [i], i + 1) && ClosedBefore(lines, open + [i], i + 1)
  {
    var next := open + [i];
    forall p | 0 <= p < |next|
      ensures next[p] < i + 1 && IsBegin(lines[next[p]])
      ensures Depth(lines, next[p] + 1, i + 1) == |next| - 1 - p && NeverCloses(lines, next[p], i + 1)
    {
      if p < |open| {
        assert next[p] == open[p];
      }
    }
    forall b | 0 <= b < i + 1 && IsBegin(lines[b]) && b !in next
      ensures exists e :: b < e < i + 1 && Matched(lines, b, e)
    {
      assert b != i by { assert next[|open|] == i; }
      assert b !in open by { assert forall p | 0 <= p < |open| :: open[p] == next[p]; }
    }
  }

  lemma PopStack(lines: seq<Line>, open: seq<nat>, i: nat)
    requires i < |lines| && IsEnd(lines[i]) && |open| > 0
    requires OpenStack(lines, open, i) && ClosedBefore(lines, open, i)
    ensures OpenStack(lines, open[..|open| - 1], i + 1) && ClosedBefore(lines, open[..|open| - 1], i + 1)
    ensures Matched(lines, open[|open| - 1], i)
    ensures forall b: nat | Matched(lines, b, i) :: b == open[|open| - 1]
  {
    var top := open[|open| - 1];
    assert Matched(lines, top, i);
    PoppedClosed(lines, open, i);
    forall b: nat | Matched(lines, b, i)
      ensures b == top
    {
      OnlyOpenCloses(lines, open, b, i);
    }
  }

  lemma PoppedClosed(lines: seq<Line>, open: seq<nat>, i: nat)
    requires i < |lines| && IsEnd(lines[i]) && |open| > 0
    requires ClosedBefore(lines, open, i) && Matched(lines, open[|open| - 1], i)
    ensures ClosedBefore(lines, open[..|open| - 1], i + 1)
  {
    var top, rest := open[|open| - 1], open[..|open| - 1];
    forall b | 0 <= b < i + 1 && IsBegin(lines[b]) && b !in rest
      ensures exists e :: b < e < i + 1 && Matched(lines, b, e)
    {
      if b == top {
        assert Matched(lines, b, i);
      } else {
        assert b !in open by { assert open == rest + [top]; }
      }
    }
  }

  predicate InOpeningOrder(spans: seq<Span>) {
    forall i, j | 0 <= i < j < |spans| :: spans[i].begin < spans[j].begin
  }

  // A BEGIN line is closed at most once.
  lemma MatchedOnce(lines: seq<Line>, b: nat, e: nat, f: nat)
    requires Matched(lines, b, e) && Matched(lines, b, f)
    ensures e == f
  {
    assert DepthSince(lines, b, e + 1) == -1 && DepthSince(lines, b, f + 1) == -1;
  }

  lemma SortedComponents(lines: seq<Line>, name: string, spans: seq<Span>)
    requires Recorded(lines, name, spans, |lines|)
    ensures forall s :: s in SortByBegin(spans) <==> s in spans
    ensures InOpeningOrder(SortByBegin(spans))
  {
    var sorted := SortByBegin(spans);
    SortSpans(spans);
    assert forall s :: s in sorted <==> s in multiset(sorted);
    forall i, j | 0 <= i < j < |sorted| ensures sorted[i].begin < sorted[j].begin {
      if sorted[i].begin == sorted[j].begin {
        assert sorted[i] in sorted && sorted[j] in sorted;
        var b, e, f := sorted[i].begin, sorted[i].end, sorted[j].end;
        assert Span(b, e) in spans && Span(b, f) in spans;
        MatchedOnce(lines, b, e, f);
        DistinctStays(spans, sorted, i, j);
      }
    }
  }

  lemma DistinctStays(spans: seq<Span>, sorted: seq<Span>, i: nat, j: nat)
    requires multiset(spans) == multiset(sorted) && i < j < |sorted|
    requires forall a, b | 0 <= a < b < |spans| :: spans[a] != spans[b]
    ensures sorted[i] != sorted[j]
  {
    CountedOnce(spans, sorted[i]);
    assert sorted == sorted[..j] + [sorted[j]] + sorted[j + 1..];
    assert sorted[i] in sorted[..j];
    assert multiset(sorted)[sorted[i]] >= multiset(sorted[..j])[sorted[i]] + multiset([sorted[j]])[sorted[i]];
  }

  lemma {:induction false} CountedOnce(spans: seq<Span>, s: Span)
    requires forall a, b | 0 <= a < b < |spans| :: spans[a] != spans[b]
    ensures multiset(spans)[s] <= 1
  {
    if spans != [] {
      CountedOnce(spans[1..], s);
      assert spans == [spans[0]] + spans[1..];
      assert forall k | 0 <= k < |spans[1..]| :: spans[1..][k] == spans[k + 1];
    }
  }

  // Whatever closes at i was still open before i.
  lemma OnlyOpenCloses(lines: seq<Line>, open: seq<nat>, b: nat, i: nat)
    requires i < |lines| && ClosedBefore(lines, open, i) && Matched(lines, b, i)
    ensures b in open
  {
    if b !in open {
      var e :| b < e < i && Matched(lines, b, e);
      MatchedOnce(lines, b, e, i);
    }
  }

  lemma StrayStep(lines: seq<Line>, name: string, open: seq<nat>, spans: seq<Span>, i: nat)
    requires Scanned(lines, name, open, spans, i) && i < |lines| && IsEnd(lines[i]) && open == []
    ensures Scanned(lines, name, open, spans, i + 1)
  {
    forall b: nat ensures !Matched(lines, b, i) {
      if Matched(lines, b, i) {
        OnlyOpenCloses(lines, open, b, i);
      }
    }
  }

  lemma RecordSpan(lines: seq<Line>, name: string, spans: seq<Span>, b: nat, i: nat)
    requires Recorded(lines, name, spans, i) && Matched(lines, b, i)
    requires forall b': nat | Matched(lines, b', i) :: b' == b
    ensures EqualFold(lines[b].parts.value, Upper(name)) ==> Recorded(lines, name, spans + [Span(b, i)], i + 1)
    ensures !EqualFold(lines[b].parts.value, Upper(name)) ==> Recorded(lines, name, spans, i + 1)
  {
    UpperTwice(name);
    var next := spans + [Span(b, i)];
    assert Span(b, i) !in spans;
    assert forall s :: s in next <==> s in spans || s == Span(b, i);
  }

  // Sorting spans by where they open.
  function SortByBegin(spans: seq<Span>): seq<Span> {
    if spans == [] then [] else InsertByBegin(spans[0], SortByBegin(spans[1..]))
  }

  function InsertByBegin(s: Span, sorted: seq<Span>): seq<Span> {
    if sorted == [] || s.begin <= sorted[0].begin then [s] + sorted
    else [sorted[0]] + InsertByBegin(s, sorted[1..])
  }

  ghost predicate SortedByBegin(spans: seq<Span>) {
    forall i, j | 0 <= i < j < |spans| :: spans[i].begin <= spans[j].begin
  }

  lemma {:induction false} SortSpans(spans: seq<Span>)
    ensures SortedByBegin(SortByBegin(spans)) && multiset(SortByBegin(spans)) == multiset(spans)
  {
    if spans != [] {
      SortSpans(spans[1..]);
      InsertSpan(spans[0], SortByBegin(spans[1..]));
      assert spans == [spans[0]] + spans[1..];
    }
  }

  lemma {:induction false} InsertSpan(s: Span, sorted: seq<Span>)
    requires SortedByBegin(sorted)
    ensures SortedByBegin(InsertByBegin(s, sorted))
    ensures multiset(InsertByBegin(s, sorted)) == multiset(sorted) + multiset{s}
  {
    if sorted != [] && s.begin > sorted[0].begin {
      InsertSpan(s, sorted[1..]);
      assert sorted == [sorted[0]] + sorted[1..];
      StillSorted(sorted[0], s, sorted[1..], InsertByBegin(s, sorted[1..]));
    }
  }

  lemma StillSorted(first: Span, s: Span, sorted: seq<Span>, rest: seq<Span>)
    requires multiset(rest) == multiset(sorted) + multiset{s} && SortedByBegin(rest)
    requires first.begin <= s.begin && forall k | 0 <= k < |sorted| :: first.begin <= sorted[k].begin
    ensures SortedByBegin([first] + rest)
  {
    forall k | 0 <= k < |rest| ensures first.begin <= rest[k].begin {
      assert rest[k] in multiset(rest);
      assert rest[k] == s || rest[k] in sorted;
    }
  }
}
