// Through the bytes and back: parsing loses nothing, and a value that is
// written, folded and parsed again reads the same.
// internal/contentline/contentline.go:37-85, lines.go
module RoundTrip {
  import opened Text
  import opened Lines
  import opened Escaping
  import opened Folding
  import opened Documents
  import Brackets
  import opened Edits
  import opened Frame

  // ---------------------------------------------------------------- lossless

  predicate EndsInBreak(s: string) { s != "" && IsBreak(s[|s| - 1]) }

  // Writing an unedited document gives its bytes back; only a last line
  // without a terminator gains one.
  lemma ParseIsLossless(raw: string)
    ensures DocumentBytes(ParseLines(raw)) ==
            if raw == "" || EndsInBreak(raw) then raw else raw + FirstEol(ParseLines(raw))
  {
    RenderParsed(raw, FirstEol(ParseLines(raw)));
  }

  lemma {:induction false} RenderParsed(raw: string, eol: string)
    ensures Render(ParseLines(raw), eol) == if raw == "" || EndsInBreak(raw) then raw else raw + eol
    decreases |raw|
  {
    if raw != "" {
      LogicalLineSound(raw);
      ParseStep(raw);
      var l := LogicalLine(raw);
      RenderParsed(l.rest, eol);
      LastOctet(l.text, l.eol, l.rest);
      RenderOne(l.text, l.eol, l.rest, ParseLines(l.rest), eol);
    }
  }

  lemma RenderOne(text: string, term: string, rest: string, more: seq<Line>, eol: string)
    ensures Render([ReadLine(text, term)] + more, eol) ==
            (text + if term == "" then eol else term) + Render(more, eol)
    ensures term != "" ==> text + term + rest == (text + term) + rest
    ensures (text + term) + (rest + eol) == (text + term + rest) + eol
  {
    var l := ReadLine(text, term);
    assert ([l] + more)[1..] == more;
  }

  lemma LastOctet(text: string, eol: string, rest: string)
    requires Continued(text) && Ends(eol, rest)
    ensures rest != "" ==> (EndsInBreak(text + eol + rest) <==> EndsInBreak(rest))
    ensures rest == "" && eol != "" ==> EndsInBreak(text + eol + rest)
    ensures eol == "" ==> !EndsInBreak(text + eol + rest)
  {
    if text != "" {
      assert !FoldedBefore(text, |text| - 1, |text|);
    }
  }

  // --------------------------------------------------- what a parsed line is

  // A text may start a line behind a line that ended in eol.
  predicate MayFollow(eol: string, text: string) {
    text != "" ==> !IsBlank(text[0]) && !(eol == "\r" && text[0] == '\n')
  }

  // The line's text is one logical line that reads as its parts.
  predicate ReadsBack(l: Line, eol: string) {
    Continued(LineText(l, eol)) && SplitLine(Unfold(LineText(l, eol))) == l.parts
  }

  predicate Parsed(l: Line) {
    !Edited(l) && Continued(l.raw) && l.parts == SplitLine(Unfold(l.raw))
  }

  predicate Following(lines: seq<Line>) {
    forall i | 0 < i < |lines| :: MayFollow(lines[i - 1].eol, lines[i].raw)
  }

  predicate AllParsed(lines: seq<Line>) {
    forall i | 0 <= i < |lines| :: Parsed(lines[i])
  }

  lemma {:induction false} ParsedLines(raw: string)
    ensures AllParsed(ParseLines(raw)) && Following(ParseLines(raw))
    decreases |raw|
  {
    if raw != "" {
      LogicalLineSound(raw);
      ParseStep(raw);
      var l := LogicalLine(raw);
      ParsedLines(l.rest);
      FirstRaw(l.rest);
      FollowingStep(ReadLine(l.text, l.eol), ParseLines(l.rest), l.rest);
    }
  }

  lemma FirstRaw(raw: string)
    ensures ParseLines(raw) != [] ==> ParseLines(raw)[0].raw <= raw
  {
    if raw != "" {
      ParseStep(raw);
      LogicalLineSound(raw);
      var l := LogicalLine(raw);
      PrefixOf(l.text, l.eol, l.rest);
    }
  }

  lemma PrefixOf(a: string, b: string, c: string)
    ensures a <= a + b + c
  {
  }

  lemma FollowingStep(first: Line, more: seq<Line>, rest: string)
    requires Following(more) && AllParsed(more) && Ends(first.eol, rest) && Parsed(first)
    requires more != [] ==> more[0].raw <= rest
    ensures Following([first] + more) && AllParsed([first] + more)
  {
    var lines := [first] + more;
    forall i | 0 < i < |lines| ensures MayFollow(lines[i - 1].eol, lines[i].raw) {
      if i == 1 {
        assert more[0].raw != "" ==> more[0].raw[0] == rest[0];
      } else {
        assert lines[i] == more[i - 1] && lines[i - 1] == more[i - 2];
      }
    }
  }

  // ------------------------------------------------------------ parsing back

  function Reread(lines: seq<Line>, eol: string): (r: seq<Line>)
    ensures |r| == |lines|
    ensures forall i | 0 <= i < |r| :: r[i] == ReadLine(LineText(lines[i], eol), eol)
  {
    seq(|lines|, i requires 0 <= i < |lines| => ReadLine(LineText(lines[i], eol), eol))
  }

  // Each line is one logical line that may follow another one.
  predicate Separable(lines: seq<Line>, eol: string) {
    IsTerminator(eol) &&
    (forall i | 0 <= i < |lines| :: lines[i].eol == eol && Continued(LineText(lines[i], eol))) &&
    (forall i | 0 < i < |lines| :: MayFollow(eol, LineText(lines[i], eol)))
  }

  lemma {:induction false} ParseRendered(lines: seq<Line>, eol: string)
    requires Separable(lines, eol)
    ensures ParseLines(Render(lines, eol)) == Reread(lines, eol)
  {
    if lines != [] {
      SeparableTail(lines, eol);
      ParseRendered(lines[1..], eol);
      ParseFirst(lines, eol);
      RereadFirst(lines, eol);
    }
  }

  lemma RereadFirst(lines: seq<Line>, eol: string)
    requires lines != []
    ensures Reread(lines, eol) == [ReadLine(LineText(lines[0], eol), eol)] + Reread(lines[1..], eol)
  {
  }

  lemma SeparableTail(lines: seq<Line>, eol: string)
    requires lines != [] && Separable(lines, eol)
    ensures Separable(lines[1..], eol)
  {
    forall i | 0 < i < |lines[1..]| ensures MayFollow(eol, LineText(lines[1..][i], eol)) {
      assert lines[1..][i] == lines[i + 1];
    }
  }

  lemma ParseFirst(lines: seq<Line>, eol: string)
    requires lines != [] && Separable(lines, eol)
    ensures ParseLines(Render(lines, eol)) ==
            [ReadLine(LineText(lines[0], eol), eol)] + ParseLines(Render(lines[1..], eol))
  {
    var text := LineText(lines[0], eol);
    var rest := Render(lines[1..], eol);
    RestMayFollow(lines[1..], eol);
    LogicalLineUnique(text, eol, rest);
    ParseStep(text + eol + rest);
    assert Render(lines, eol) == text + eol + rest;
  }

  lemma RestMayFollow(lines: seq<Line>, eol: string)
    requires IsTerminator(eol)
    requires lines != [] ==> lines[0].eol == eol && MayFollow(eol, LineText(lines[0], eol))
    ensures Ends(eol, Render(lines, eol))
  {
    if lines != [] {
      FirstOctet(LineText(lines[0], eol), eol, Render(lines[1..], eol));
    }
  }

  lemma FirstOctet(text: string, eol: string, rest: string)
    requires eol != ""
    ensures (text + eol + rest)[0] == if text == "" then eol[0] else text[0]
  {
  }

  // -------------------------------------------------------- a rebuilt line

  lemma {:induction false} FoldContinued(s: string, start: nat, eol: string)
    requires start <= |s| && BreakFree(s) && IsTerminator(eol) && Advances(s, start)
    ensures Continued(FoldFrom(s, start, eol))
    ensures start == 0 && s != "" ==> FoldFrom(s, start, eol) != "" && FoldFrom(s, start, eol)[0] == s[0]
    ensures 0 < start < |s| ==> FoldFrom(s, start, eol) != "" && FoldFrom(s, start, eol)[0] == ' '
    decreases |s| - start
  {
    var end := WindowEnd(start);
    if end < |s| {
      var c := Cut(s, start, end);
      FoldContinued(s, c, eol);
      FirstPiece(s, start, c, eol, FoldFrom(s, c, eol));
    } else {
      assert BreakFree(Lead(start) + s[start..]);
    }
  }

  lemma FirstPiece(s: string, start: nat, c: nat, eol: string, rest: string)
    requires start < c <= |s| && BreakFree(s) && IsTerminator(eol) && Continued(rest) && rest != "" && rest[0] == ' '
    ensures var t := Lead(start) + s[start..c] + (eol + rest);
            Continued(t) && t == Lead(start) + s[start..c] + eol + rest && t != "" &&
            t[0] == if start == 0 then s[0] else ' '
  {
    var a := Lead(start) + s[start..c];
    assert BreakFree(a);
    ContinuedJoin(a, eol, rest);
    assert a + eol + rest == a + (eol + rest);
  }

  lemma ContinuedJoin(a: string, eol: string, b: string)
    requires BreakFree(a) && IsTerminator(eol) && Continued(b) && b != "" && b[0] == ' '
    ensures Continued(a + eol + b)
  {
    var t := a + eol + b;
    var at := |a| + |eol|;
    assert t[at] == ' ' && t[at - 1] == eol[|eol| - 1];
    forall i | 0 <= i < |t| && IsBreak(t[i]) ensures FoldedBefore(t, i, |t|) {
      if i >= at {
        assert FoldedBefore(b, i - at, |b|);
        assert t[i] == b[i - at] && t[i + 1] == b[i - at + 1];
      } else {
        assert forall k | 0 <= k < |a| :: t[k] == a[k];
      }
    }
  }

  // A rebuilt line without breaks reads back as its parts.
  lemma RebuiltReadsBack(l: Line, eol: string)
    requires Edited(l) && IsTerminator(eol) && Readable(l.parts)
    requires BreakFree(Rebuild(l.parts)) && FoldTerminates(Rebuild(l.parts))
    requires !IsBlank(Rebuild(l.parts)[0])
    ensures ReadsBack(l, eol) && MayFollow(eol, LineText(l, eol))
  {
    var s := Rebuild(l.parts);
    UnfoldFold(s, eol);
    FoldContinued(s, 0, eol);
    SplitRebuild(l.parts);
  }

  predicate BreakFreeParts(p: Parts) {
    BreakFree(p.group) && BreakFree(p.name) && BreakFree(p.params) && BreakFree(p.value)
  }

  lemma RebuildBreakFree(p: Parts)
    requires BreakFreeParts(p)
    ensures BreakFree(Rebuild(p))
  {
    assert BreakFree(Head(p));
  }

  lemma SplitBreakFree(s: string)
    requires BreakFree(s)
    ensures BreakFreeParts(SplitLine(s))
  {
    var c := Colon(s, 0, false);
    if c < |s| {
      var head := s[..c];
      var semi := IndexOf(head, ';');
      var id := head[..semi];
      assert BreakFree(head) && BreakFree(id) && BreakFree(head[semi..]) && BreakFree(s[c + 1..]);
      assert forall i | 0 <= i <= |id| :: BreakFree(id[i..]) && BreakFree(id[..i]);
    }
  }

  // ------------------------------------------------------------ valid UTF-8

  lemma {:induction false} AsciiIsUtf8(s: string)
    requires forall i | 0 <= i < |s| :: s[i] as int < 0x80
    ensures Utf8(s)
  {
    if s != "" {
      AsciiIsUtf8(s[1..]);
    }
  }

  lemma {:induction false} EscapeConcat(a: string, b: string)
    ensures Escape(a + b) == Escape(a) + Escape(b)
  {
    if a == "" {
      assert a + b == b;
    } else {
      assert (a + b)[1..] == a[1..] + b;
      EscapeConcat(a[1..], b);
      assert EscapeChar(a[0]) + (Escape(a[1..]) + Escape(b)) == Escape(a) + Escape(b);
    }
  }

  lemma {:induction false} EscapeHigh(s: string)
    requires forall i | 0 <= i < |s| :: s[i] as int >= 0x80
    ensures Escape(s) == s
  {
    if s != "" {
      EscapeHigh(s[1..]);
    }
  }

  lemma {:induction false} EscapeUtf8(s: string)
    requires Utf8(s)
    ensures Utf8(Escape(s))
    decreases |s|
  {
    if s != "" {
      var n := SequenceLength(s[0]);
      EscapeUtf8(s[n..]);
      EscapeCharacter(s[..n]);
      EscapeConcat(s[..n], s[n..]);
      CutAt(s, n);
      Utf8Concat(Escape(s[..n]), Escape(s[n..]));
    }
  }

  // Escaping one character leaves it well formed.
  lemma EscapeCharacter(a: string)
    requires a != "" && SequenceLength(a[0]) == |a|
    requires forall k | 1 <= k < |a| :: IsContinuation(a[k])
    ensures Utf8(Escape(a))
  {
    if |a| == 1 {
      EscapeAscii(a[0]);
      assert a[1..] == "" && EscapeChar(a[0]) + "" == EscapeChar(a[0]);
    } else {
      EscapeHigh(a);
      assert a[|a|..] == "" && Utf8("");
    }
  }

  lemma EscapeAscii(c: char)
    requires c as int < 0x80
    ensures Utf8(EscapeChar(c))
  {
    AsciiIsUtf8(EscapeChar(c));
  }

  lemma RebuildUtf8(p: Parts)
    requires Utf8(p.group) && Utf8(p.params) && Utf8(p.value) && PlainName(p.name)
    ensures Utf8(Rebuild(p))
  {
    AsciiIsUtf8(p.name);
    AsciiIsUtf8(".");
    AsciiIsUtf8(":");
    Utf8Concat(p.group, ".");
    Utf8Concat(p.group + ".", p.name);
    Utf8Concat(if p.group == "" then p.name else p.group + "." + p.name, p.params);
    Utf8Concat(Head(p), ":");
    Utf8Concat(Head(p) + ":", p.value);
  }

  // ------------------------------------------------- the document as a whole

  // Every line is terminated the same way.
  predicate OneStyle(lines: seq<Line>, eol: string) {
    IsTerminator(eol) && forall i | 0 <= i < |lines| :: lines[i].eol == eol
  }

  // The lines of a parsed document, and one line that was rewritten.
  predicate Written(lines: seq<Line>, eol: string) {
    OneStyle(lines, eol) &&
    (forall i | 0 <= i < |lines| :: ReadsBack(lines[i], eol)) &&
    (forall i | 0 < i < |lines| :: MayFollow(eol, LineText(lines[i], eol)))
  }

  lemma ParsedIsWritten(raw: string, eol: string)
    requires OneStyle(ParseLines(raw), eol)
    ensures Written(ParseLines(raw), eol)
  {
    ParsedLines(raw);
    var lines := ParseLines(raw);
    forall i | 0 < i < |lines| ensures MayFollow(eol, LineText(lines[i], eol)) {
      assert MayFollow(lines[i - 1].eol, lines[i].raw);
      assert Parsed(lines[i]);
    }
    forall i | 0 <= i < |lines| ensures ReadsBack(lines[i], eol) {
      assert Parsed(lines[i]);
    }
  }

  // Two documents whose lines have the same parts.
  predicate SameParts(x: seq<Line>, y: seq<Line>) {
    |x| == |y| && forall i | 0 <= i < |x| :: x[i].parts == y[i].parts
  }

  lemma WrittenReadsBack(lines: seq<Line>, eol: string)
    requires Written(lines, eol) && lines != []
    ensures FirstEol(lines) == eol
    ensures ParseLines(DocumentBytes(lines)) == Reread(lines, eol)
    ensures SameParts(Reread(lines, eol), lines)
  {
    ParseRendered(lines, eol);
  }

  // Two documents with their brackets in the same places.
  predicate SameBrackets(x: seq<Line>, y: seq<Line>) {
    |x| == |y| && forall i | 0 <= i < |x| :: Bracket(x[i]) == Bracket(y[i])
  }

  lemma SamePartsBrackets(x: seq<Line>, y: seq<Line>)
    requires SameParts(x, y)
    ensures SameBrackets(x, y)
  {
    forall i | 0 <= i < |x| ensures Bracket(x[i]) == Bracket(y[i]) {
      assert x[i].parts == y[i].parts;
    }
  }

  lemma {:induction false} SameFind(x: seq<Line>, y: seq<Line>, span: Span, name: string, i: nat)
    requires SameBrackets(x, y) && -1 <= span.begin < i
    requires forall k | 0 <= k < |x| :: x[k].parts.name == name <==> y[k].parts.name == name
    ensures FindFrom(x, span, name, i) == FindFrom(y, span, name, i)
    decreases |x| - i
  {
    if i < |x| {
      SameFind(x, y, span, name, i + 1);
      SameContains(x, y, span, i);
    }
  }

  lemma SameContains(x: seq<Line>, y: seq<Line>, span: Span, i: nat)
    requires SameBrackets(x, y) && -1 <= span.begin < i < |x|
    ensures Contains(x, span, i) == Contains(y, span, i)
  {
    Brackets.DepthAlike(x, y, span.begin + 1, i);
  }

  lemma SameMatched(x: seq<Line>, y: seq<Line>, b: nat, e: nat)
    requires SameBrackets(x, y) && Matched(x, b, e)
    ensures Matched(y, b, e)
  {
    forall k | b < k <= e ensures DepthSince(y, b, k) == DepthSince(x, b, k) && DepthSince(y, b, k) >= 0 {
      Brackets.DepthAlike(x, y, b + 1, k);
      assert DepthSince(x, b, k) >= 0;
    }
    assert DepthSince(y, b, e) == 0;
    assert Bracket(x[b]) == Bracket(y[b]) && Bracket(x[e]) == Bracket(y[e]);
  }

  // Components are told apart by their brackets and the values of those.
  lemma SameComponent(x: seq<Line>, y: seq<Line>, name: string, span: Span)
    requires SameBrackets(x, y) && IsFirstComponent(x, name, span)
    requires forall i | 0 <= i < |x| && IsBegin(x[i]) :: x[i].parts.value == y[i].parts.value
    ensures IsFirstComponent(y, name, span)
  {
    SameMatched(x, y, span.begin, span.end);
    forall b: nat, e: nat | IsComponent(y, name, b, e) ensures span.begin <= b {
      SameMatched(y, x, b, e);
      assert IsComponent(x, name, b, e);
    }
  }

  // ------------------------------------------------ the component after a write

  lemma InsertDepth(lines: seq<Line>, at: nat, l: Line, a: nat, k: nat)
    requires at <= |lines| && Bracket(l) == 0 && a <= at && k <= |lines|
    ensures var next := lines[..at] + [l] + lines[at..];
            (k <= at ==> Depth(next, a, k) == Depth(lines, a, k)) &&
            (k >= at ==> Depth(next, a, k + 1) == Depth(lines, a, k))
  {
    var next := lines[..at] + [l] + lines[at..];
    if k <= at {
      if a <= k {
        Brackets.DepthSame(next, a, lines, a, k - a);
      }
    } else {
      Brackets.DepthSplit(next, a, at, k + 1);
      Brackets.DepthSplit(next, at, at + 1, k + 1);
      Brackets.DepthSplit(lines, a, at, k);
      Brackets.DepthSame(next, a, lines, a, at - a);
      Brackets.DepthSame(next, at + 1, lines, at, k - at);
    }
    if k == at {
      Brackets.DepthSplit(next, a, at, at + 1);
    }
  }

  // A component that opens before an inserted line was there before it.
  lemma InsertedMatched(lines: seq<Line>, at: nat, l: Line, b: nat, e: nat)
    requires at <= |lines| && Bracket(l) == 0 && b < at
    requires Matched(lines[..at] + [l] + lines[at..], b, e)
    ensures e != at && Matched(lines, b, if e < at then e else e - 1)
  {
    var next := lines[..at] + [l] + lines[at..];
    assert next[at] == l;
    var f := if e < at then e else e - 1;
    assert next[b] == lines[b] && next[e] == lines[f];
    InsertDepth(lines, at, l, b + 1, f);
    assert DepthSince(lines, b, f) == 0;
    forall k | b < k <= f ensures DepthSince(lines, b, k) >= 0 {
      InsertDepth(lines, at, l, b + 1, k);
      assert DepthSince(next, b, if k <= at then k else k + 1) >= 0;
    }
  }

  lemma InsertedComponent(lines: seq<Line>, comp: string, span: Span, l: Line)
    requires IsFirstComponent(lines, comp, span) && Bracket(l) == 0
    requires Matched(lines[..span.end] + [l] + lines[span.end..], span.begin, span.end + 1)
    ensures IsFirstComponent(lines[..span.end] + [l] + lines[span.end..], comp, span.(end := span.end + 1))
  {
    var next := lines[..span.end] + [l] + lines[span.end..];
    forall b: nat, e: nat | IsComponent(next, comp, b, e) ensures span.begin <= b {
      if b < span.begin {
        InsertedMatched(lines, span.end, l, b, e);
        assert next[b] == lines[b];
        assert IsComponent(lines, comp, b, if e < span.end then e else e - 1);
      }
    }
    assert next[span.begin] == lines[span.begin];
  }

  // ---------------------------------------------------------- reading a write

  lemma FindAfterReplace(body: seq<Line>, name: string, k: nat, l: Line)
    requires FindInside(body, name, 0) == Some(k) && l.parts.name == name && Bracket(l) == Bracket(body[k])
    ensures FindInside(body[k := l], name, 0) == Some(k)
  {
    ReplaceDepth(body, k, l);
    var next := body[k := l];
    assert Direct(next, k);
    forall i | 0 <= i < k ensures !(next[i].parts.name == name && Direct(next, i)) {
      assert !(body[i].parts.name == name && Direct(body, i));
    }
  }

  lemma FindAfterAppend(body: seq<Line>, name: string, l: Line)
    requires FindInside(body, name, 0) == None && l.parts.name == name && Direct(body, |body|)
    ensures FindInside(body + [l], name, 0) == Some(|body|)
  {
    var next := body + [l];
    forall i | 0 <= i <= |body| ensures Depth(next, 0, i) == Depth(body, 0, i) {
      Brackets.DepthSame(next, 0, body, 0, i);
    }
    assert Direct(next, |body|);
    forall i | 0 <= i < |body| ensures !(next[i].parts.name == name && Direct(next, i)) {
      assert !(body[i].parts.name == name && Direct(body, i));
    }
  }

  // Where a write of this property puts its line.
  function TargetOf(lines: seq<Line>, span: Span, name: string): nat
    requires InRange(lines, span)
  {
    var found := FindFirst(lines, span, name);
    if found.Some? then found.value else span.end
  }

  // The property is found at this line, which has been rewritten to hold the
  // value.
  predicate Hit(f: Edit, at: nat, name: string, value: string) {
    InRange(f.lines, f.span) && FindFirst(f.lines, f.span, name) == Some(at) && 0 < at < |f.lines| &&
    f.lines[at].parts.value == value && f.lines[at].parts.name == name && Edited(f.lines[at])
  }

  lemma HitInside(e: Edit, next: seq<Line>, k: nat, name: string, value: string)
    requires InRange(e.lines, e.span) && e.span.begin >= 0
    requires FindInside(next, name, 0) == Some(k) && next[k].parts.value == value && Edited(next[k])
    ensures Hit(Exchange(e.lines, e.span, next), e.span.begin + 1 + k, name, value)
    ensures Exchange(e.lines, e.span, next).lines[e.span.begin + 1 + k] == next[k]
  {
    ExchangeFrames(e, next);
    var f := Exchange(e.lines, e.span, next);
    FindIsInside(f.lines, f.span, name);
    assert f.lines[e.span.begin + 1 + k] == Inside(f.lines, f.span)[k];
  }

  // A value that is written is the value that is read.
  lemma SetThenValue(lines: seq<Line>, span: Span, name: string, value: string, params: Option<string>)
    requires InRange(lines, span) && span.begin >= 0 && Direct(Inside(lines, span), |Inside(lines, span)|)
    requires value != "" && Upper(name) != "BEGIN" && Upper(name) != "END"
    ensures Hit(SetProperty(lines, span, name, value, params), TargetOf(lines, span, Upper(name)), Upper(name), value)
  {
    var body := Inside(lines, span);
    var next := SetInside(body, name, value, params, FirstEol(lines));
    SetIsInside(lines, span, name, value, params);
    FindIsInside(lines, span, Upper(name));
    var at := WrittenAt(body, name, value, params, FirstEol(lines), next);
    HitInside(Edit(lines, span), next, at, Upper(name), value);
  }

  lemma WrittenAt(body: seq<Line>, name: string, value: string, params: Option<string>, eol: string, next: seq<Line>) returns (at: nat)
    requires next == SetInside(body, name, value, params, eol) && Direct(body, |body|) && value != ""
    requires Upper(name) != "BEGIN" && Upper(name) != "END"
    ensures var found := FindInside(body, Upper(name), 0); at == if found.Some? then found.value else |body|
    ensures FindInside(next, Upper(name), 0) == Some(at) && next[at].parts.value == value && Edited(next[at])
  {
    match FindInside(body, Upper(name), 0)
    case Some(k) =>
      at := k;
      FindAfterReplace(body, Upper(name), k, next[k]);
      assert next == body[k := next[k]];
    case None =>
      at := |body|;
      UpperTwice(name);
      FindAfterAppend(body, Upper(name), next[|body|]);
  }

  // ---------------------------------------------------------- write, then read

  // A group that begins with a blank would make the rebuilt line a fold of
  // the line before it.
  predicate GroupMayStart(l: Line) { l.parts.group == "" || !IsBlank(l.parts.group[0]) }

  lemma HeadStart(p: Parts)
    requires p.name != ""
    ensures Rebuild(p)[0] == if p.group == "" then p.name[0] else p.group[0]
  {
  }

  lemma TargetReadsBack(lines: seq<Line>, span: Span, name: string, value: string, eol: string)
    requires Written(lines, eol) && AllParsed(lines) && InRange(lines, span) && span.end < |lines|
    requires PlainName(Upper(name)) && value != "" && BreakFree(value)
    requires var f := SetProperty(lines, span, name, value, None).lines;
             var l := f[TargetOf(lines, span, Upper(name))];
             FoldTerminates(Rebuild(l.parts)) && GroupMayStart(l)
    ensures var l := SetProperty(lines, span, name, value, None).lines[TargetOf(lines, span, Upper(name))];
            l.eol == eol && ReadsBack(l, eol) && MayFollow(eol, LineText(l, eol))
  {
    var f := SetProperty(lines, span, name, value, None).lines;
    var at := TargetOf(lines, span, Upper(name));
    var l := f[at];
    UpperTwice(name);
    match FindFirst(lines, span, Upper(name))
    case Some(i) =>
      assert l == EditLine(lines[i], lines[i].parts.params, value);
      assert Parsed(lines[i]);
      SplitBreakFree(Unfold(lines[i].raw));
      ReadLinesAreReadable(Unfold(lines[i].raw), l.parts);
      RebuildBreakFree(l.parts);
      HeadStart(l.parts);
      RebuiltReadsBack(l, eol);
    case None =>
      assert l == NewLine(name, "", value).(eol := FirstEol(lines));
      PlainNameReadable(Upper(name), value);
      assert BreakFree(Upper(name));
      RebuildBreakFree(l.parts);
      HeadStart(l.parts);
      RebuiltReadsBack(l, eol);
  }

  lemma SetIsWritten(lines: seq<Line>, span: Span, name: string, value: string, eol: string)
    requires Written(lines, eol) && InRange(lines, span) && span.end < |lines| && value != "" && span.end > 0
    requires var l := SetProperty(lines, span, name, value, None).lines[TargetOf(lines, span, Upper(name))];
             l.eol == eol && ReadsBack(l, eol) && MayFollow(eol, LineText(l, eol))
    ensures Written(SetProperty(lines, span, name, value, None).lines, eol)
  {
    var f := SetProperty(lines, span, name, value, None).lines;
    var at := TargetOf(lines, span, Upper(name));
    match FindFirst(lines, span, Upper(name))
    case Some(i) =>
      assert f == lines[i := f[i]];
    case None =>
      assert f == lines[..at] + [f[at]] + lines[at..];
      InsertWritten(lines, at, f[at], eol);
  }

  lemma InsertWritten(lines: seq<Line>, at: nat, l: Line, eol: string)
    requires Written(lines, eol) && 0 < at <= |lines|
    requires l.eol == eol && ReadsBack(l, eol) && MayFollow(eol, LineText(l, eol))
    ensures Written(lines[..at] + [l] + lines[at..], eol)
  {
    var next := lines[..at] + [l] + lines[at..];
    forall i | 0 <= i < |next|
      ensures next[i].eol == eol && ReadsBack(next[i], eol)
      ensures i > 0 ==> MayFollow(eol, LineText(next[i], eol))
    {
      if i < at {
        assert next[i] == lines[i];
      } else if i > at {
        assert next[i] == lines[i - 1];
      }
    }
  }

  lemma SetKeepsComponent(lines: seq<Line>, comp: string, span: Span, name: string, value: string)
    requires IsFirstComponent(lines, comp, span) && value != ""
    requires Upper(name) != "BEGIN" && Upper(name) != "END"
    ensures var f := SetProperty(lines, span, name, value, None); IsFirstComponent(f.lines, comp, f.span)
  {
    var f := SetProperty(lines, span, name, value, None);
    var body := Inside(lines, span);
    MatchedIsBalanced(lines, span.begin, span.end);
    match FindFirst(lines, span, Upper(name))
    case Some(i) =>
      assert f.lines == lines[i := f.lines[i]] && Bracket(f.lines[i]) == Bracket(lines[i]) == 0;
      SameComponent(lines, f.lines, comp, span);
    case None =>
      var l := NewLine(name, "", value).(eol := FirstEol(lines));
      assert Bracket(l) == 0;
      assert f == Edit(lines[..span.end] + [l] + lines[span.end..], span.(end := span.end + 1));
      InsertBalanced(lines, span, l);
      InsertedComponent(lines, comp, span, l);
  }

  lemma InsertBalanced(lines: seq<Line>, span: Span, l: Line)
    requires 0 <= span.begin && 0 <= span.end && Matched(lines, span.begin, span.end) && Bracket(l) == 0
    ensures Matched(lines[..span.end] + [l] + lines[span.end..], span.begin, span.end + 1)
  {
    var next := lines[..span.end] + [l] + lines[span.end..];
    var b, e := span.begin, span.end + 1;
    assert next[b] == lines[b] && next[e] == lines[span.end];
    forall k | b < k <= e ensures DepthSince(next, b, k) >= 0 {
      InsertDepth(lines, span.end, l, b + 1, if k <= span.end then k else k - 1);
      assert DepthSince(lines, b, if k <= span.end then k else k - 1) >= 0;
    }
    InsertDepth(lines, span.end, l, b + 1, span.end);
  }

  lemma ReadsTheSame(f: Edit, comp: string, at: nat, name: string, v: string, eol: string)
    requires Written(f.lines, eol) && IsFirstComponent(f.lines, comp, f.span) && '\r' !in v
    requires FindFirst(f.lines, f.span, name) == Some(at) && at < |f.lines| && f.lines[at].parts.value == Escape(v)
    ensures var g := ParseLines(DocumentBytes(f.lines));
            g == Reread(f.lines, eol) && SameParts(g, f.lines) &&
            IsFirstComponent(g, comp, f.span) && PropertyValue(g, f.span, name) == v
  {
    var g := Reread(f.lines, eol);
    WrittenReadsBack(f.lines, eol);
    SamePartsBrackets(g, f.lines);
    SameComponent(f.lines, g, comp, f.span);
    SameValue(g, f.lines, f.span, name);
    UnescapeEscape(v);
  }

  lemma SameValue(x: seq<Line>, y: seq<Line>, span: Span, name: string)
    requires SameParts(x, y) && span.begin >= -1
    ensures PropertyValue(x, span, name) == PropertyValue(y, span, name)
  {
    SamePartsBrackets(x, y);
    SameFind(x, y, span, name, span.begin + 1);
    var r := FindFirst(x, span, name);
    assert r.Some? ==> x[r.value].parts == y[r.value].parts;
  }

  lemma FoldStart(s: string, eol: string)
    requires s != "" && FoldTerminates(s)
    ensures Fold(s, eol) != "" && Fold(s, eol)[0] == s[0]
  {
  }

  // A line that begins with a blank cannot come back as a line of its own.
  lemma BlankGroupIsLost(lines: seq<Line>, at: nat, eol: string)
    requires 0 < at < |lines| && Edited(lines[at]) && !GroupMayStart(lines[at]) && lines[at].parts.name != ""
    requires FoldTerminates(Rebuild(lines[at].parts))
    ensures forall out :: ParseLines(out) != Reread(lines, eol)
  {
    HeadStart(lines[at].parts);
    FoldStart(Rebuild(lines[at].parts), eol);
    var r := Reread(lines, eol);
    assert !MayFollow(r[at - 1].eol, r[at].raw);
    assert !Following(r);
    forall out ensures ParseLines(out) != r {
      ParsedLines(out);
    }
  }

  // A write into a component of a terminated document with one style of line
  // ending: a plain property name, and a value that is not empty, has no
  // carriage return and can be folded.
  ghost predicate Writes(raw: string, eol: string, comp: string, span: Span, name: string, v: string) {
    OneStyle(ParseLines(raw), eol) && IsFirstComponent(ParseLines(raw), comp, span) &&
    PlainName(Upper(name)) && Upper(name) != "BEGIN" && Upper(name) != "END" &&
    v != "" && '\r' !in v &&
    Writable(SetProperty(ParseLines(raw), span, name, Escape(v), None).lines)
  }

  lemma WriteHits(raw: string, eol: string, comp: string, span: Span, name: string, v: string)
    requires Writes(raw, eol, comp, span, name, v)
    ensures var lines := ParseLines(raw);
            var f := SetProperty(lines, span, name, Escape(v), None);
            InRange(lines, span) &&
            var at := TargetOf(lines, span, Upper(name));
            Hit(f, at, Upper(name), Escape(v)) && FoldTerminates(Rebuild(f.lines[at].parts))
  {
    var lines := ParseLines(raw);
    var value := Escape(v);
    EscapeHasNoBreak(v);
    assert v[0] in v;
    WriteLands(lines, comp, span, name, value);
    LandsWritable(SetProperty(lines, span, name, value, None), TargetOf(lines, span, Upper(name)), Upper(name), value);
  }

  lemma WriteLands(lines: seq<Line>, comp: string, span: Span, name: string, value: string)
    requires IsFirstComponent(lines, comp, span) && value != "" && Upper(name) != "BEGIN" && Upper(name) != "END"
    ensures InRange(lines, span)
    ensures Hit(SetProperty(lines, span, name, value, None), TargetOf(lines, span, Upper(name)), Upper(name), value)
  {
    MatchedIsBalanced(lines, span.begin, span.end);
    SetThenValue(lines, span, name, value, None);
  }

  lemma LandsWritable(f: Edit, at: nat, name: string, value: string)
    requires Hit(f, at, name, value) && Writable(f.lines)
    ensures FoldTerminates(Rebuild(f.lines[at].parts))
  {
    assert f.lines[at] in f.lines;
  }

  lemma WriteReadsBack(raw: string, eol: string, comp: string, span: Span, name: string, v: string)
    requires Writes(raw, eol, comp, span, name, v)
    requires var f := SetProperty(ParseLines(raw), span, name, Escape(v), None);
             InRange(ParseLines(raw), span) && TargetOf(ParseLines(raw), span, Upper(name)) < |f.lines| &&
             GroupMayStart(f.lines[TargetOf(ParseLines(raw), span, Upper(name))])
    ensures var f := SetProperty(ParseLines(raw), span, name, Escape(v), None);
            var g := ParseLines(DocumentBytes(f.lines));
            g == Reread(f.lines, eol) && SameParts(g, f.lines) &&
            IsFirstComponent(g, comp, f.span) && PropertyValue(g, f.span, Upper(name)) == v
  {
    var lines := ParseLines(raw);
    WriteHits(raw, eol, comp, span, name, v);
    EscapeHasNoBreak(v);
    ParsedLines(raw);
    ParsedIsWritten(raw, eol);
    TargetReadsBack(lines, span, name, Escape(v), eol);
    SetIsWritten(lines, span, name, Escape(v), eol);
    SetKeepsComponent(lines, comp, span, name, Escape(v));
    ReadsTheSame(SetProperty(lines, span, name, Escape(v), None), comp, TargetOf(lines, span, Upper(name)), Upper(name), v, eol);
  }

  // Parsing the bytes that a write comes to: the document reads back line by
  // line exactly when the rewritten line does not begin with a blank, and
  // then the same component is found and its value is the one written.
  lemma WriteThenRead(raw: string, eol: string, comp: string, span: Span, name: string, v: string)
    requires Writes(raw, eol, comp, span, name, v)
    ensures var f := SetProperty(ParseLines(raw), span, name, Escape(v), None);
            var at := TargetOf(ParseLines(raw), span, Upper(name));
            var g := ParseLines(DocumentBytes(f.lines));
            at < |f.lines| &&
            (g == Reread(f.lines, eol) <==> GroupMayStart(f.lines[at])) &&
            (g == Reread(f.lines, eol) ==>
               SameParts(g, f.lines) && IsFirstComponent(g, comp, f.span) && PropertyValue(g, f.span, Upper(name)) == v)
  {
    WriteHits(raw, eol, comp, span, name, v);
    var f := SetProperty(ParseLines(raw), span, name, Escape(v), None);
    var at := TargetOf(ParseLines(raw), span, Upper(name));
    if GroupMayStart(f.lines[at]) {
      WriteReadsBack(raw, eol, comp, span, name, v);
    } else {
      BlankGroupIsLost(f.lines, at, eol);
    }
  }

  // A line of a group that begins with a blank, in plain parts.
  predicate BlankGroup(p: Parts) {
    PlainName(p.name) && p.params == "" && BreakFree(p.value) && p.group != "" && IsBlank(p.group[0]) &&
    forall i | 0 <= i < |p.group| :: PlainChar(p.group[i])
  }

  // Every such line can be read from bytes: behind an empty line, a break and
  // a blank. The break and that blank are a fold, and the blank behind them
  // begins the group.
  lemma BlankGroupIsRead(a: string, p: Parts, c: string)
    requires BlankGroup(p) && BreakFree(a) && BreakFree(c) && c != "" && !IsBlank(c[0])
    ensures var text := CRLF + " " + Rebuild(p);
            var lines := ParseLines(a + CRLF + (text + CRLF + (c + CRLF + "")));
            lines == [ReadLine(a, CRLF), ReadLine(text, CRLF), ReadLine(c, CRLF)] &&
            lines[1].parts == p && !GroupMayStart(lines[1])
  {
    var text := CRLF + " " + Rebuild(p);
    PartsAreBreakFree(p);
    FoldContinues(Rebuild(p));
    ReadThree(a, text, c);
    UnfoldAcrossFold(CRLF, Rebuild(p));
    PlainLine(p);
  }

  lemma PartsAreBreakFree(p: Parts)
    requires BlankGroup(p)
    ensures BreakFree(Rebuild(p)) && Rebuild(p) != ""
  {
  }

  lemma FoldContinues(s: string)
    requires BreakFree(s)
    ensures Continued(CRLF + " " + s) && !IsBlank((CRLF + " " + s)[0])
  {
    var text := CRLF + " " + s;
    assert text[0] == '\r' && text[1] == '\n' && text[2] == ' ';
    assert forall i | 3 <= i < |text| :: text[i] == s[i - 3];
  }

  lemma ReadThree(a: string, b: string, c: string)
    requires Continued(a) && Continued(b) && Continued(c) && b != "" && !IsBlank(b[0]) && c != "" && !IsBlank(c[0])
    ensures ParseLines(a + CRLF + (b + CRLF + (c + CRLF + ""))) == [ReadLine(a, CRLF), ReadLine(b, CRLF), ReadLine(c, CRLF)]
  {
    var last := c + CRLF + "";
    var middle := b + CRLF + last;
    ParseNext(c, CRLF, "");
    ParseNext(b, CRLF, last);
    ParseNext(a, CRLF, middle);
  }

  lemma ParseNext(text: string, eol: string, rest: string)
    requires Continued(text) && Ends(eol, rest) && eol != ""
    ensures ParseLines(text + eol + rest) == [ReadLine(text, eol)] + ParseLines(rest)
  {
    LogicalLineUnique(text, eol, rest);
  }

  // Plain parts without parameters are what their own line splits into.
  lemma PlainLine(p: Parts)
    requires PlainName(p.name) && p.params == "" && BreakFree(Rebuild(p))
    requires forall i | 0 <= i < |p.group| :: PlainChar(p.group[i])
    ensures SplitLine(Unfold(Rebuild(p))) == p
  {
    var text := Rebuild(p);
    assert text[0..|text|] == text;
    UnfoldPlain(text, 0, |text|);
    assert text + "" == text;
    ColonAfterPlain(Head(p), 0);
    if p.group == "" {
      PlainNameReadable(p.name, p.value);
    } else {
      HeadOfGroup(p.group, p.name, "", p.value);
      assert Head(p) == p.group + "." + p.name + "";
    }
    SplitRebuild(p);
  }

  // In UTF-8 text fold always advances, so the document can be written.
  lemma Utf8IsWritable(lines: seq<Line>, span: Span, name: string, v: string)
    requires InRange(lines, span) && Direct(Inside(lines, span), |Inside(lines, span)|)
    requires Writable(lines) && PlainName(Upper(name)) && Utf8(v) && v != "" && '\r' !in v
    requires Upper(name) != "BEGIN" && Upper(name) != "END"
    requires var found := FindFirst(lines, span, Upper(name));
             found.Some? ==> Utf8(lines[found.value].parts.group) && Utf8(lines[found.value].parts.params)
    ensures Writable(SetProperty(lines, span, name, Escape(v), None).lines)
  {
    EscapeHasNoBreak(v);
    assert v[0] in v;
    EscapeUtf8(v);
    UpperTwice(name);
    match FindFirst(lines, span, Upper(name))
    case Some(i) =>
      var l := EditLine(lines[i], lines[i].parts.params, Escape(v));
      PartsFold(l.parts);
      ReplacedWritable(lines, i, l);
    case None =>
      var l := NewLine(name, "", Escape(v)).(eol := FirstEol(lines), added := true);
      AsciiIsUtf8("");
      PartsFold(l.parts);
      InsertedWritable(lines, span.end, l);
  }

  lemma PartsFold(p: Parts)
    requires Utf8(p.group) && Utf8(p.params) && Utf8(p.value) && PlainName(p.name)
    ensures FoldTerminates(Rebuild(p))
  {
    RebuildUtf8(p);
    Utf8Advances(Rebuild(p), 0);
  }

  lemma ReplacedWritable(lines: seq<Line>, i: nat, l: Line)
    requires Writable(lines) && i < |lines| && FoldTerminates(Rebuild(l.parts))
    ensures Writable(lines[i := l])
  {
    assert forall x | x in lines[i := l] :: x in lines || x == l;
  }

  lemma InsertedWritable(lines: seq<Line>, at: nat, l: Line)
    requires Writable(lines) && at <= |lines| && FoldTerminates(Rebuild(l.parts))
    ensures Writable(lines[..at] + [l] + lines[at..])
  {
    assert forall x | x in lines[..at] + [l] + lines[at..] :: x in lines || x == l;
  }
}
