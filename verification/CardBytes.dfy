// A contact applied to stored bytes, written out and read again.
// internal/vcard/contact.go:34-93
module CardBytes {
  import opened Text
  import opened Lines
  import opened Documents
  import opened Edits
  import opened Frame
  import opened Properties
  import opened Cards
  import opened SetAll
  import opened Contacts
  import opened RoundTrip
  import Brackets
  import Escaping
  import Folding

  // ---------------------------------------------------- lines that read back

  // A line that will read back from the bytes: as it was read, or with parts
  // that a rebuilt line can carry. The lines of the names that are written have
  // a group that can stand before any parameters.
  predicate Safe(l: Line, eol: string, names: set<string>) {
    l.eol == eol && BreakFreeParts(l.parts) && (PlainName(l.parts.name) ==> Readable(l.parts)) &&
    (l.parts.name in names ==> PlainName(l.parts.name) && GroupMayStart(l) && Without(l.parts.group, '"')) &&
    if Edited(l) then l.parts.name in names
    else RoundTrip.ReadsBack(l, eol) && MayFollow(eol, LineText(l, eol))
  }

  predicate Each(lines: seq<Line>, p: Line -> bool) { forall i | 0 <= i < |lines| :: p(lines[i]) }

  ghost predicate AllSafe(lines: seq<Line>, eol: string, names: set<string>) {
    Each(lines, (l: Line) => Safe(l, eol, names))
  }

  lemma ParsedIsSafe(l: Line, eol: string, names: set<string>)
    requires Parsed(l) && l.eol == eol && RoundTrip.ReadsBack(l, eol) && MayFollow(eol, LineText(l, eol))
    requires l.parts.name in names ==> PlainName(l.parts.name) && GroupMayStart(l) && Without(l.parts.group, '"')
    ensures Safe(l, eol, names)
  {
    SplitBreakFree(Unfold(l.raw));
    if PlainName(l.parts.name) {
      ReadLinesAreReadable(Unfold(l.raw), l.parts);
    }
  }

  // ---------------------------------------------- what can be rebuilt safely

  lemma ReadableAnyValue(p: Parts, value: string)
    requires Readable(p)
    ensures Readable(p.(value := value))
  {
  }

  // A type that does not close or open a quotation and ends no line.
  predicate PlainKind(kind: string) {
    forall i | 0 <= i < |kind| :: kind[i] !in {'"', ':', '\r', '\n'}
  }

  lemma TypeParamsPlain(kind: string)
    requires PlainKind(kind)
    ensures var t := TypeParams(kind);
            BreakFree(t) && Without(t, ':') && Without(t, '"') && (t == "" || t[0] == ';')
  {
    var u := Upper(kind);
    assert forall i | 0 <= i < |u| :: u[i] == UpperChar(kind[i]);
    assert TypeParams(kind) == "" || forall i | 6 <= i < |TypeParams(kind)| :: TypeParams(kind)[i] == u[i - 6];
  }

  // The group of a line that can be read holds no mark that would end it.
  lemma GroupIsPlain(p: Parts)
    requires Readable(p) && p.group != "" && Without(p.group, '"')
    ensures Without(p.group, ';') && Without(p.group, '.') && Without(p.group, ':')
  {
    var head := Head(p);
    var id := head[..IndexOf(head, ';')];
    var dot := IndexOf(id, '.');
    assert p.group == id[..dot];
    assert forall k | 0 <= k < |p.group| :: p.group[k] == id[k] == head[k] == (head + ":")[k];
    NoColonBefore(head + ":", 0, |p.group|);
  }

  lemma {:induction false} NoColonBefore(s: string, i: nat, k: nat)
    requires i <= k <= |s| && k <= Colon(s, i, false) && forall j | i <= j < k :: s[j] != '"'
    ensures forall j | i <= j < k :: s[j] != ':'
    decreases k - i
  {
    if i < k {
      NoColonBefore(s, i + 1, k);
    }
  }

  // With plain parameters in the place of those it had it can be read still.
  lemma NewParamsReadable(p: Parts, params: string, value: string)
    requires PlainName(p.name) && (p.group != "" ==> Readable(p) && Without(p.group, '"'))
    requires Without(params, ':') && Without(params, '"') && (params == "" || params[0] == ';')
    ensures Readable(Parts(p.group, p.name, params, value))
  {
    var q := Parts(p.group, p.name, params, value);
    if p.group == "" {
      HeadOfName(p.name, params, value);
    } else {
      GroupIsPlain(p);
      HeadOfGroup(p.group, p.name, params, value);
    }
    HeadWithout(q, ':');
    HeadWithout(q, '"');
    ColonAfterPlain(Head(q), 0);
  }

  lemma HeadWithout(p: Parts, c: char)
    requires Without(p.group, c) && Without(p.name, c) && Without(p.params, c) && c != '.'
    ensures Without(Head(p), c)
  {
  }

  lemma PlainNameWithout(name: string)
    requires PlainName(name)
    ensures Without(name, ':') && Without(name, '"') && BreakFree(name)
  {
  }

  lemma EditedIsSafe(l: Line, params: string, value: string, eol: string, names: set<string>)
    requires Safe(l, eol, names) && l.parts.name in names && BreakFree(params) && BreakFree(value)
    requires params == l.parts.params || (Without(params, ':') && Without(params, '"') && (params == "" || params[0] == ';'))
    ensures Safe(EditLine(l, params, value), eol, names)
  {
    if params == l.parts.params {
      ReadableAnyValue(l.parts, value);
    } else {
      NewParamsReadable(l.parts, params, value);
    }
  }

  lemma AddedIsSafe(name: string, params: string, value: string, eol: string, names: set<string>)
    requires PlainName(Upper(name)) && Upper(name) in names && BreakFree(params) && BreakFree(value)
    requires Without(params, ':') && Without(params, '"') && (params == "" || params[0] == ';')
    ensures Safe(AddedLine(name, params, value, eol), eol, names)
  {
    NewParamsReadable(Parts("", Upper(name), "", ""), params, value);
    PlainNameWithout(Upper(name));
  }

  lemma RewrittenIsSafe(l: Line, want: Property, eol: string, names: set<string>)
    requires Safe(l, eol, names) && l.parts.name in names && PlainKind(want.kind)
    ensures Safe(Rewritten(l, want), eol, names)
  {
    TypeParamsPlain(want.kind);
    Escaping.EscapeHasNoBreak(want.value);
    var params := if HasType(l.parts.params, want.kind) then l.parts.params else TypeParams(want.kind);
    EditedIsSafe(l, params, Escaping.Escape(want.value), eol, names);
  }

  lemma FreshIsSafe(name: string, want: Property, eol: string, names: set<string>)
    requires PlainName(Upper(name)) && Upper(name) in names && PlainKind(want.kind)
    ensures Safe(Fresh(name, want, eol), eol, names)
  {
    TypeParamsPlain(want.kind);
    Escaping.EscapeHasNoBreak(want.value);
    AddedIsSafe(name, TypeParams(want.kind), Escaping.Escape(want.value), eol, names);
  }

  // -------------------------------------------------- steps keep lines safe

  predicate PlainStep(s: Step) {
    PlainName(Upper(s.name)) &&
    match s
    case One(_, value) => BreakFree(value)
    case All(_, values) => forall i | 0 <= i < |values| :: PlainKind(values[i].kind)
  }

  lemma {:induction false} CompactedEach(body: seq<Line>, group: string, j: nat, p: Line -> bool)
    requires j <= |body| && Each(body, p)
    ensures Each(CompactedInside(body, group, j), p)
  {
    if j > 0 {
      CompactedEach(body, group, j - 1, p);
    }
  }

  lemma RemoveEach(body: seq<Line>, k: nat, p: Line -> bool)
    requires k < |body| && Each(body, p)
    ensures Each(RemoveInside(body, k), p)
  {
    if body[k].parts.group != "" {
      CompactedEach(body, body[k].parts.group, |body|, p);
    }
  }

  lemma SetSafe(body: seq<Line>, name: string, value: string, eol: string, names: set<string>)
    requires AllSafe(body, eol, names) && PlainName(Upper(name)) && Upper(name) in names && BreakFree(value)
    ensures AllSafe(SetInside(body, name, value, None, eol), eol, names)
  {
    match FindInside(body, Upper(name), 0)
    case Some(k) =>
      if value == "" {
        RemoveEach(body, k, (l: Line) => Safe(l, eol, names));
      } else {
        EditedIsSafe(body[k], body[k].parts.params, value, eol, names);
      }
    case None => AddedIsSafe(name, "", value, eol, names);
  }

  // The values that a test lets pass, whatever passing line of the name they
  // are written onto.
  ghost function StableFor(p: Line -> bool, name: string, eol: string): iset<Property> {
    iset want: Property | p(Fresh(name, want, eol)) &&
      forall l {:trigger Rewritten(l, want)} | p(l) && l.parts.name == Upper(name) :: p(Rewritten(l, want))
  }

  ghost predicate Stable(p: Line -> bool, name: string, values: seq<Property>, eol: string) {
    forall i | 0 <= i < |values| :: values[i] in StableFor(p, name, eol)
  }

  // The lines keep their names while they are written.
  predicate SameNames(body: seq<Line>, w: seq<Line>) {
    |body| <= |w| && forall i | 0 <= i < |body| :: w[i].parts.name == body[i].parts.name
  }

  lemma {:induction false} WriteNames(body: seq<Line>, places: seq<nat>, name: string, values: seq<Property>, n: nat, eol: string, w: seq<Line>)
    requires n <= |values| && AllBelow(places, |body|) && w == WriteInside(body, places, name, values, n, eol)
    ensures SameNames(body, w)
    decreases n
  {
    if n > 0 {
      WriteNames(body, places, name, values, n - 1, eol, WriteInside(body, places, name, values, n - 1, eol));
    }
  }

  // What the first n values are written onto: a line of their name, or none.
  predicate Onto(body: seq<Line>, places: seq<nat>, name: string) {
    AllBelow(places, |body|) && forall i | 0 <= i < |places| :: body[places[i]].parts.name == Upper(name)
  }

  lemma WriteNextEach(body: seq<Line>, places: seq<nat>, name: string, values: seq<Property>, n: nat, eol: string, p: Line -> bool, before: seq<Line>, w: seq<Line>)
    requires n < |values| && Onto(body, places, name) && values[n] in StableFor(p, name, eol) && Each(before, p)
    requires before == WriteInside(body, places, name, values, n, eol) && w == WriteInside(body, places, name, values, n + 1, eol)
    ensures Each(w, p)
  {
    WriteNames(body, places, name, values, n, eol, before);
    if n < |places| {
      assert before[places[n]].parts.name == body[places[n]].parts.name;
      WriteOntoEach(before, places[n], Rewritten(before[places[n]], values[n]), p, w);
    } else {
      WriteBehindEach(before, Fresh(name, values[n], eol), p, w);
    }
  }

  lemma WriteOntoEach(before: seq<Line>, k: nat, l: Line, p: Line -> bool, w: seq<Line>)
    requires Each(before, p) && k < |before| && p(l) && w == before[k := l]
    ensures Each(w, p)
  {
  }

  lemma WriteBehindEach(before: seq<Line>, l: Line, p: Line -> bool, w: seq<Line>)
    requires Each(before, p) && p(l) && w == before + [l]
    ensures Each(w, p)
  {
  }

  lemma {:induction false} WriteEach(body: seq<Line>, places: seq<nat>, name: string, values: seq<Property>, n: nat, eol: string, p: Line -> bool, w: seq<Line>)
    requires Each(body, p) && Onto(body, places, name) && Stable(p, name, values, eol) && n <= |values|
    requires w == WriteInside(body, places, name, values, n, eol)
    ensures Each(w, p)
    decreases n
  {
    if n > 0 {
      var m := n - 1;
      var before := WriteInside(body, places, name, values, m, eol);
      WriteEach(body, places, name, values, m, eol, p, before);
      assert values[m] in StableFor(p, name, eol);
      WriteNextEach(body, places, name, values, m, eol, p, before, w);
    }
  }

  lemma {:induction false} RemoveDownEach(body: seq<Line>, places: seq<nat>, from: nat, to: nat, p: Line -> bool, r: Option<seq<Line>>)
    requires from <= |places| && Each(body, p) && r == RemoveDownInside(body, places, from, to)
    ensures r.Some? ==> Each(r.value, p)
    decreases from
  {
    if from > to && places[from - 1] < |body| {
      RemoveEach(body, places[from - 1], p);
      RemoveDownEach(RemoveInside(body, places[from - 1]), places, from - 1, to, p, r);
    }
  }

  lemma SafeIsStable(name: string, values: seq<Property>, eol: string, names: set<string>)
    requires PlainName(Upper(name)) && Upper(name) in names && forall i | 0 <= i < |values| :: PlainKind(values[i].kind)
    ensures Stable((l: Line) => Safe(l, eol, names), name, values, eol)
  {
    var p := (l: Line) => Safe(l, eol, names);
    forall i | 0 <= i < |values| ensures values[i] in StableFor(p, name, eol) {
      FreshIsSafe(name, values[i], eol, names);
      forall l | p(l) && l.parts.name == Upper(name) ensures p(Rewritten(l, values[i])) {
        RewrittenIsSafe(l, values[i], eol, names);
      }
    }
  }

  lemma SetAllSafe(body: seq<Line>, name: string, values: seq<Property>, eol: string, names: set<string>)
    requires AllSafe(body, eol, names) && PlainName(Upper(name)) && Upper(name) in names
    requires forall i | 0 <= i < |values| :: PlainKind(values[i].kind)
    ensures var r := SetAllInside(body, name, values, eol); r.Some? ==> AllSafe(r.value, eol, names)
  {
    SafeIsStable(name, values, eol, names);
    SetAllEach(body, name, values, eol, (l: Line) => Safe(l, eol, names));
  }

  lemma SetAllEach(body: seq<Line>, name: string, values: seq<Property>, eol: string, p: Line -> bool)
    requires Each(body, p) && Stable(p, name, values, eol)
    ensures var r := SetAllInside(body, name, values, eol); r.Some? ==> Each(r.value, p)
  {
    var places := Places(body, Upper(name), |body|);
    forall i | 0 <= i < |places| ensures body[places[i]].parts.name == Upper(name) {
      PlacesHold(body, Upper(name), |body|, i);
    }
    var w := WriteInside(body, places, name, values, |values|, eol);
    WriteEach(body, places, name, values, |values|, eol, p, w);
    RemoveDownEach(w, places, |places|, |values|, p, SetAllInside(body, name, values, eol));
  }

  // A step changes the inside of the card alone.
  function StepBody(body: seq<Line>, s: Step, eol: string): Option<seq<Line>> {
    match s
    case One(name, value) => Some(SetInside(body, name, value, None, eol))
    case All(name, values) => SetAllInside(body, name, values, eol)
  }

  lemma StepIsInside(e: Edit, eol: string, scope: Scope, s: Step)
    requires Prepared(e, eol, scope) && Covers(e, scope, s)
    ensures var r := StepBody(Inside(e.lines, e.span), s, eol);
            r.Some? && StepEdit(e, s) == Some(Exchange(e.lines, e.span, r.value)) &&
            Inside(Exchange(e.lines, e.span, r.value).lines, Exchange(e.lines, e.span, r.value).span) == r.value
  {
    var body := Inside(e.lines, e.span);
    match s
    case One(name, value) =>
      SetIsInside(e.lines, e.span, name, value, None);
      ExchangeFrames(e, SetInside(body, name, value, None, eol));
    case All(name, values) =>
      AllIsInside(e, eol, scope, s);
      ExchangeFrames(e, SetAllInside(body, name, values, eol).value);
  }

  lemma AllIsInside(e: Edit, eol: string, scope: Scope, s: Step)
    requires Prepared(e, eol, scope) && Covers(e, scope, s) && s.All?
    ensures var r := SetAllInside(Inside(e.lines, e.span), s.name, s.values, eol);
            r.Some? && AllSet(e, s.name, s.values) == Some(Exchange(e.lines, e.span, r.value))
  {
    var body := Inside(e.lines, e.span);
    GoingAreCovered(e, scope, s);
    HeadsAreHit(body, scope, Upper(s.name), |s.values|);
    SetAllInsideReads(body, scope, s.name, s.values, eol);
    SetAllIsInside(e, eol, s.name, s.values, SetAllInside(body, s.name, s.values, eol));
  }

  ghost predicate SafeInside(e: Edit, eol: string, names: set<string>)
    requires InRange(e.lines, e.span)
  {
    AllSafe(Inside(e.lines, e.span), eol, names)
  }

  lemma StepSafe(e: Edit, eol: string, scope: Scope, s: Step)
    requires Prepared(e, eol, scope) && Covers(e, scope, s) && PlainStep(s) && SafeInside(e, eol, scope.names)
    ensures var f := StepEdit(e, s); f.Some? && InRange(f.value.lines, f.value.span) && SafeInside(f.value, eol, scope.names)
  {
    var body := Inside(e.lines, e.span);
    StepIsInside(e, eol, scope, s);
    ExchangeFrames(e, StepBody(body, s, eol).value);
    match s
    case One(name, value) => SetSafe(body, name, value, eol, scope.names);
    case All(name, values) => SetAllSafe(body, name, values, eol, scope.names);
  }

  lemma {:induction false} RunSafe(e: Edit, eol: string, scope: Scope, steps: seq<Step>, more: seq<Step>)
    requires Ready(e, eol, scope) && CoversAll(e, scope, steps + more) && Apart(steps + more)
    requires SafeInside(e, eol, scope.names) && forall i | 0 <= i < |steps| :: PlainStep(steps[i])
    ensures var r := RunSteps(e, steps);
            r.Some? && InRange(r.value.lines, r.value.span) && SafeInside(r.value, eol, scope.names)
    decreases |steps|
  {
    if steps != [] {
      var s, rest := steps[0], steps[1..] + more;
      FirstApart(steps, more);
      assert Covers(e, scope, (steps + more)[0]);
      StepSafe(e, eol, scope, s);
      assert UnsharedBy(e, scope.names, Upper(s.name));
      StaysReady(e, StepEdit(e, s).value, eol, scope, s, rest, Upper(s.name));
      RunSafe(StepEdit(e, s).value, eol, scope, steps[1..], more);
    }
  }

  // ------------------------------------------------------ the whole document

  // Where the inside of a component is safe, and what stands around it is as it
  // was read, the document reads back line by line.
  lemma FramedIsWritten(e: Edit, f: Edit, scope: Scope, eol: string)
    requires RoundTrip.Written(e.lines, eol) && SameFrame(e, f, scope) && e.span.begin >= 0
    requires SafeInside(f, eol, scope.names) && Writable(f.lines)
    ensures RoundTrip.Written(f.lines, eol)
  {
    forall i | 0 <= i < |f.lines| ensures InPlace(f.lines, i, eol) {
      LineFramed(e, f, scope, eol, i);
    }
    InPlaceIsWritten(f.lines, eol);
  }

  lemma InPlaceIsWritten(lines: seq<Line>, eol: string)
    requires IsTerminator(eol) && forall i | 0 <= i < |lines| :: InPlace(lines, i, eol)
    ensures RoundTrip.Written(lines, eol)
  {
    forall i | 0 <= i < |lines|
      ensures lines[i].eol == eol && RoundTrip.ReadsBack(lines[i], eol) && (i > 0 ==> MayFollow(eol, LineText(lines[i], eol)))
    {
      assert InPlace(lines, i, eol);
    }
  }

  // What is asked of one line of a written document.
  predicate InPlace(lines: seq<Line>, i: nat, eol: string)
    requires i < |lines|
  {
    lines[i].eol == eol && RoundTrip.ReadsBack(lines[i], eol) && (i > 0 ==> MayFollow(eol, LineText(lines[i], eol)))
  }

  lemma LineFramed(e: Edit, f: Edit, scope: Scope, eol: string, i: nat)
    requires RoundTrip.Written(e.lines, eol) && SameFrame(e, f, scope) && e.span.begin >= 0 && i < |f.lines|
    requires SafeInside(f, eol, scope.names) && Writable(f.lines)
    ensures InPlace(f.lines, i, eol)
  {
    if i <= f.span.begin {
      SameLineBefore(e, f, i);
    } else if i < f.span.end {
      assert f.lines[i] == Inside(f.lines, f.span)[i - f.span.begin - 1];
      SafeReadsBack(f.lines[i], eol, scope.names);
    } else {
      LineBehind(e, f, i);
    }
  }

  lemma LineBehind(e: Edit, f: Edit, i: nat)
    requires InRange(e.lines, e.span) && e.span.begin >= 0 && InRange(f.lines, f.span) && f.span.end <= i < |f.lines|
    requires e.lines[e.span.end..] == f.lines[f.span.end..]
    ensures var j := i - f.span.end + e.span.end; 0 < j < |e.lines| && f.lines[i] == e.lines[j]
  {
    var j := i - f.span.end + e.span.end;
    assert f.lines[i] == f.lines[f.span.end..][i - f.span.end] == e.lines[e.span.end..][i - f.span.end];
  }

  lemma SafeReadsBack(l: Line, eol: string, names: set<string>)
    requires Safe(l, eol, names) && IsTerminator(eol) && (Edited(l) ==> Folding.FoldTerminates(Rebuild(l.parts)))
    ensures RoundTrip.ReadsBack(l, eol) && MayFollow(eol, LineText(l, eol))
  {
    if Edited(l) {
      RebuildBreakFree(l.parts);
      HeadStart(l.parts);
      RebuiltReadsBack(l, eol);
    }
  }

  // ------------------------------------------------- the component behind it

  // Around a balanced inside the depth goes on as it did.
  lemma DepthBehind(e: Edit, f: Edit, scope: Scope, b: nat, t: nat)
    requires Opened(e, scope) && Opened(f, scope) && SameFrame(e, f, scope) && b <= e.span.begin
    requires e.span.end + t <= |e.lines| && f.span.end + t <= |f.lines|
    ensures Depth(f.lines, b, f.span.end + t) == Depth(e.lines, b, e.span.end + t)
  {
    DepthAround(e, scope, b, t);
    DepthAround(f, scope, b, t);
    SameBefore(e, f, b, e.span.begin + 1);
    SameBehind(e.lines, e.span.end, f.lines, f.span.end, t);
  }

  lemma SameBehind(x: seq<Line>, i: nat, y: seq<Line>, j: nat, t: nat)
    requires i <= |x| && j <= |y| && x[i..] == y[j..] && i + t <= |x| && j + t <= |y|
    ensures Depth(x, i, i + t) == Depth(y, j, j + t)
  {
    forall k | i <= k < i + t ensures x[k] == y[k - i + j] {
      assert x[k] == x[i..][k - i] == y[j..][k - i];
    }
    Brackets.DepthSame(x, i, y, j, t);
  }

  lemma DepthAround(e: Edit, scope: Scope, b: nat, t: nat)
    requires Opened(e, scope) && b <= e.span.begin && e.span.end + t <= |e.lines|
    ensures Depth(e.lines, b, e.span.end + t) ==
            Depth(e.lines, b, e.span.begin + 1) + Depth(e.lines, e.span.end, e.span.end + t)
  {
    var body := Inside(e.lines, e.span);
    Brackets.DepthSplit(e.lines, b, e.span.begin + 1, e.span.end + t);
    Brackets.DepthSplit(e.lines, e.span.begin + 1, e.span.end, e.span.end + t);
    DepthInside(e.lines, e.span, 0, |body|);
  }

  // A component that opens before this one and closes behind it.
  lemma OuterMatched(e: Edit, f: Edit, scope: Scope, b: nat, x: nat)
    requires Opened(e, scope) && Opened(f, scope) && SameFrame(e, f, scope) && b < e.span.begin
    requires Matched(f.lines, b, x) && f.span.end < x
    ensures Matched(e.lines, b, x - f.span.end + e.span.end)
  {
    var t := x - f.span.end;
    var y := e.span.end + t;
    LineBehind(e, f, x);
    SameLineBefore(e, f, b);
    DepthBehind(e, f, scope, b + 1, t);
    forall k | b < k <= y ensures DepthSince(e.lines, b, k) >= 0 {
      OuterDepth(e, f, scope, b, x, k);
    }
  }

  lemma OuterDepth(e: Edit, f: Edit, scope: Scope, b: nat, x: nat, k: nat)
    requires Opened(e, scope) && Opened(f, scope) && SameFrame(e, f, scope) && b < e.span.begin
    requires Matched(f.lines, b, x) && f.span.end < x && b < k <= x - f.span.end + e.span.end <= |e.lines|
    ensures DepthSince(e.lines, b, k) >= 0
  {
    var p := e.span.begin + 1;
    if k <= p {
      SameBefore(e, f, b + 1, k);
      assert DepthSince(f.lines, b, k) >= 0;
    } else if k <= e.span.end {
      DepthWithin(e, f, scope, b, x, k);
    } else {
      var t := k - e.span.end;
      DepthBehind(e, f, scope, b + 1, t);
      assert DepthSince(f.lines, b, f.span.end + t) >= 0;
    }
  }

  lemma DepthWithin(e: Edit, f: Edit, scope: Scope, b: nat, x: nat, k: nat)
    requires Opened(e, scope) && InRange(f.lines, f.span) && f.span.begin == e.span.begin && b < e.span.begin < k <= e.span.end
    requires e.lines[..e.span.begin + 1] == f.lines[..f.span.begin + 1] && Matched(f.lines, b, x) && f.span.begin < x
    ensures DepthSince(e.lines, b, k) >= 0
  {
    var p := e.span.begin + 1;
    SameBefore(e, f, b + 1, p);
    assert DepthSince(f.lines, b, p) >= 0;
    Brackets.DepthSplit(e.lines, b + 1, p, k);
    DepthInside(e.lines, e.span, 0, k - p);
    assert Depth(Inside(e.lines, e.span), 0, k - p) >= 0;
  }

  lemma SameBefore(e: Edit, f: Edit, b: nat, k: nat)
    requires InRange(e.lines, e.span) && InRange(f.lines, f.span) && f.span.begin == e.span.begin
    requires e.lines[..e.span.begin + 1] == f.lines[..f.span.begin + 1] && k <= e.span.begin + 1
    ensures Depth(e.lines, b, k) == Depth(f.lines, b, k)
  {
    forall i | 0 <= i < k ensures e.lines[i] == f.lines[i] {
      SameLineBefore(e, f, i);
    }
    Brackets.DepthAlike(e.lines, f.lines, b, k);
  }

  lemma EarlierMatched(e: Edit, f: Edit, b: nat, x: nat)
    requires InRange(e.lines, e.span) && InRange(f.lines, f.span) && f.span.begin == e.span.begin
    requires e.lines[..e.span.begin + 1] == f.lines[..f.span.begin + 1]
    requires Matched(f.lines, b, x) && x <= e.span.begin
    ensures Matched(e.lines, b, x) && e.lines[b] == f.lines[b]
  {
    SameLineBefore(e, f, b);
    SameLineBefore(e, f, x);
    forall k | b < k <= x ensures DepthSince(e.lines, b, k) >= 0 {
      SameBefore(e, f, b + 1, k);
      assert DepthSince(f.lines, b, k) >= 0;
    }
    SameBefore(e, f, b + 1, x);
  }

  // The first component of its name still is the first after edits in scope.
  lemma FramedComponent(e: Edit, f: Edit, comp: string, scope: Scope)
    requires IsFirstComponent(e.lines, comp, e.span) && Opened(e, scope) && Opened(f, scope) && SameFrame(e, f, scope)
    ensures IsFirstComponent(f.lines, comp, f.span)
  {
    FrameKeepsSpan(e, f, scope);
    forall b: nat, x: nat | IsComponent(f.lines, comp, b, x) ensures f.span.begin <= b {
      if b < f.span.begin {
        var y := OpensBefore(e, f, comp, scope, b, x);
      }
    }
  }

  lemma OpensBefore(e: Edit, f: Edit, comp: string, scope: Scope, b: nat, x: nat) returns (y: nat)
    requires Opened(e, scope) && Opened(f, scope) && SameFrame(e, f, scope)
    requires 0 <= f.span.begin && Matched(f.lines, f.span.begin, f.span.end)
    requires IsComponent(f.lines, comp, b, x) && b < f.span.begin
    ensures IsComponent(e.lines, comp, b, y)
  {
    Brackets.NestedOrApart(f.lines, b, x, f.span.begin, f.span.end);
    SameLineBefore(e, f, b);
    if x < f.span.begin {
      EarlierMatched(e, f, b, x);
      y := x;
    } else {
      OuterMatched(e, f, scope, b, x);
      y := x - f.span.end + e.span.end;
    }
  }

  lemma SameLineBefore(e: Edit, f: Edit, b: nat)
    requires InRange(e.lines, e.span) && InRange(f.lines, f.span) && f.span.begin == e.span.begin && b <= e.span.begin
    requires e.lines[..e.span.begin + 1] == f.lines[..f.span.begin + 1]
    ensures e.lines[b] == f.lines[b]
  {
    assert e.lines[b] == e.lines[..e.span.begin + 1][b] == f.lines[..f.span.begin + 1][b];
  }

  // ------------------------------------------------------------ reading it again

  // Documents of the same parts hold the same lines of each name.
  lemma {:induction false} SameSelected(x: seq<Line>, y: seq<Line>, name: string, n: nat)
    requires SameParts(x, y) && n <= |x|
    ensures SameParts(Select(x, ByName(name), n), Select(y, ByName(name), n))
  {
    if n > 0 {
      SameSelected(x, y, name, n - 1);
      SamePartsBrackets(x, y);
      Brackets.DepthAlike(x, y, 0, n - 1);
      assert x[n - 1].parts == y[n - 1].parts;
    }
  }

  lemma SameOwn(x: seq<Line>, y: seq<Line>, span: Span, name: string)
    requires SameParts(x, y) && InRange(x, span)
    ensures SameParts(Own(Edit(x, span), name), Own(Edit(y, span), name))
    ensures Shown(Own(Edit(x, span), name)) == Shown(Own(Edit(y, span), name))
  {
    var a, b := Inside(x, span), Inside(y, span);
    assert forall i | 0 <= i < |a| :: a[i] == x[span.begin + 1 + i] && b[i] == y[span.begin + 1 + i];
    SameSelected(a, b, name, |a|);
    SameShown(LinesOf(a, name), LinesOf(b, name));
  }

  lemma SameShown(x: seq<Line>, y: seq<Line>)
    requires SameParts(x, y)
    ensures Shown(x) == Shown(y)
  {
  }

  lemma SameRaw(x: seq<Line>, y: seq<Line>, span: Span, name: string)
    requires SameParts(x, y) && InRange(x, span)
    ensures RawText(Edit(x, span), name) == RawText(Edit(y, span), name)
  {
    SameOwn(x, y, span, name);
    RawIsFirst(Edit(x, span), name);
    RawIsFirst(Edit(y, span), name);
  }

  lemma SameContact(x: seq<Line>, y: seq<Line>, span: Span)
    requires SameParts(x, y) && InRange(x, span)
    ensures ReadContact(Edit(x, span)) == ReadContact(Edit(y, span))
  {
    SameRaw(x, y, span, "N");
    SameRaw(x, y, span, "FN");
    SameRaw(x, y, span, "ORG");
    SameRaw(x, y, span, "TITLE");
    SameRaw(x, y, span, "NOTE");
    SameRaw(x, y, span, "URL");
    SameOwn(x, y, span, "TEL");
    SameOwn(x, y, span, "EMAIL");
  }

  // ------------------------------------------------------------- the contact

  // Types that can be written, whatever their case.
  predicate PlainKinds(values: seq<Property>) { forall i | 0 <= i < |values| :: PlainKind(values[i].kind) }

  // Every line of the nine names can be rewritten.
  predicate Rewritable(lines: seq<Line>) {
    forall i | 0 <= i < |lines| && lines[i].parts.name in CARD_SCOPE ::
      GroupMayStart(lines[i]) && Without(lines[i].parts.group, '"')
  }

  lemma CardNamesPlain()
    ensures forall n | n in CARD_SCOPE :: PlainName(n)
  {
    CardNames();
    forall n | n in CARD_SCOPE ensures PlainName(n) {
      if n in {"FN", "N", "TITLE", "NOTE"} {
      } else if n in {"URL", "TEL", "EMAIL"} {
      } else {
        assert n in {"ORG", "REV"};
      }
    }
  }

  lemma {:induction false} JoinBreakFree(parts: seq<string>)
    requires parts != []
    ensures BreakFree(Escaping.JoinEscaped(parts))
  {
    Escaping.EscapeHasNoBreak(parts[0]);
    if |parts| > 1 {
      JoinBreakFree(parts[1..]);
    }
  }

  lemma CardStepsPlain(c: Contact, stamp: string, organisation: string)
    requires PlainKinds(NonEmpty(c.phones)) && PlainKinds(NonEmpty(c.emails))
    ensures forall i | 0 <= i < 9 :: PlainStep(CardSteps(c, stamp, organisation)[i])
  {
    var steps := CardSteps(c, stamp, organisation);
    forall i | 0 <= i < 9 ensures PlainStep(steps[i]) {
      StepsApart(c, stamp, organisation);
      CardNamesPlain();
      assert PlainName(Upper(steps[i].name));
      if steps[i].One? {
        TextBreakFree(c, stamp, organisation, i);
      }
    }
  }

  lemma TextBreakFree(c: Contact, stamp: string, organisation: string, i: nat)
    requires i < 9 && CardSteps(c, stamp, organisation)[i].One?
    ensures BreakFree(CardSteps(c, stamp, organisation)[i].value)
  {
    if i == 0 {
      Escaping.EscapeHasNoBreak(DisplayName(c));
    } else if i == 1 {
      NameBreakFree(c.familyName, c.givenName);
    } else if i == 2 {
      Escaping.EscapeHasNoBreak(c.title);
    } else if i == 3 {
      Escaping.EscapeHasNoBreak(c.note);
    } else if i == 4 {
      Escaping.EscapeHasNoBreak(c.url);
    } else if i == 7 {
      OrganisationBreakFree(c.organisation, organisation);
    } else {
      Escaping.EscapeHasNoBreak(stamp);
    }
  }

  lemma NameBreakFree(family: string, given: string)
    ensures BreakFree(StructuredName(family, given))
  {
    Escaping.EscapeHasNoBreak(family);
    Escaping.EscapeHasNoBreak(given);
  }

  lemma OrganisationBreakFree(organisation: string, current: string)
    ensures BreakFree(OrganisationText(organisation, current))
  {
    if organisation != "" {
      JoinBreakFree([organisation] + Escaping.SplitStructured(current)[1..]);
    }
  }

  // A stored card of one style of line ending, in bytes.
  ghost predicate StoredCard(raw: string, eol: string, span: Span) {
    OneStyle(ParseLines(raw), eol) && IsFirstComponent(ParseLines(raw), "VCARD", span) && Rewritable(ParseLines(raw))
  }

  lemma StoredIsSafe(raw: string, eol: string, span: Span)
    requires StoredCard(raw, eol, span)
    ensures InRange(ParseLines(raw), span) && SafeInside(Edit(ParseLines(raw), span), eol, CARD_SCOPE)
    ensures RoundTrip.Written(ParseLines(raw), eol)
  {
    var lines := ParseLines(raw);
    var body := Inside(lines, span);
    ParsedIsWritten(raw, eol);
    ParsedLines(raw);
    CardNamesPlain();
    forall i | 0 <= i < |body| ensures Safe(body[i], eol, CARD_SCOPE) {
      var j := span.begin + 1 + i;
      assert body[i] == lines[j] && Parsed(lines[j]);
      ParsedIsSafe(lines[j], eol, CARD_SCOPE);
    }
  }

  // After a contact is applied to stored bytes and the card is written, those
  // bytes hold the same card line by line, and the contact read from them is
  // the one read from the edited lines.
  lemma ContactThroughBytes(raw: string, eol: string, span: Span, scope: Scope, c: Contact, stamp: string)
    requires StoredCard(raw, eol, span) && CardReady(Edit(ParseLines(raw), span), eol, scope, c, stamp)
    requires PlainKinds(NonEmpty(c.phones)) && PlainKinds(NonEmpty(c.emails))
    requires var r := AppliedContact(Edit(ParseLines(raw), span), c, stamp); r.Some? ==> Writable(r.value.lines)
    ensures var r := AppliedContact(Edit(ParseLines(raw), span), c, stamp);
            r.Some? && InRange(r.value.lines, r.value.span) &&
            var again := ParseLines(DocumentBytes(r.value.lines));
            again == Reread(r.value.lines, eol) && SameParts(again, r.value.lines) &&
            IsFirstComponent(again, "VCARD", r.value.span) &&
            ReadContact(Edit(again, r.value.span)) == ReadContact(r.value)
  {
    var e := Edit(ParseLines(raw), span);
    AppliedIsWritten(raw, eol, span, scope, c, stamp);
    var f := AppliedContact(e, c, stamp).value;
    WrittenReadsBack(f.lines, eol);
    var again := Reread(f.lines, eol);
    SamePartsBrackets(again, f.lines);
    SameComponent(f.lines, again, "VCARD", f.span);
    SameContact(again, f.lines, f.span);
  }

  lemma AppliedIsWritten(raw: string, eol: string, span: Span, scope: Scope, c: Contact, stamp: string)
    requires StoredCard(raw, eol, span) && CardReady(Edit(ParseLines(raw), span), eol, scope, c, stamp)
    requires PlainKinds(NonEmpty(c.phones)) && PlainKinds(NonEmpty(c.emails))
    requires var r := AppliedContact(Edit(ParseLines(raw), span), c, stamp); r.Some? ==> Writable(r.value.lines)
    ensures var r := AppliedContact(Edit(ParseLines(raw), span), c, stamp);
            r.Some? && InRange(r.value.lines, r.value.span) && r.value.lines != [] &&
            RoundTrip.Written(r.value.lines, eol) && IsFirstComponent(r.value.lines, "VCARD", r.value.span)
  {
    var e := Edit(ParseLines(raw), span);
    var steps := CardSteps(c, stamp, RawText(e, "ORG"));
    StoredIsSafe(raw, eol, span);
    CardStepsPlain(c, stamp, RawText(e, "ORG"));
    ContactIsRun(e, eol, scope, c, stamp);
    RunSafe(e, eol, scope, steps, []);
    assert CARD_NAMES[0] in CARD_SCOPE && UnsharedBy(e, CARD_SCOPE, CARD_NAMES[0]);
    RunStepsRead(e, eol, scope, steps, [], CARD_NAMES[0]);
    var f := AppliedContact(e, c, stamp).value;
    FramedIsWritten(e, f, scope, eol);
    FramedComponent(e, f, "VCARD", scope);
  }

  // And the card can be opened again: it says its version as it did.
  lemma VersionStays(raw: string, eol: string, span: Span, scope: Scope, c: Contact, stamp: string)
    requires StoredCard(raw, eol, span) && CardReady(Edit(ParseLines(raw), span), eol, scope, c, stamp)
    requires PlainKinds(NonEmpty(c.phones)) && PlainKinds(NonEmpty(c.emails))
    requires UnsharedBy(Edit(ParseLines(raw), span), CARD_SCOPE, "VERSION")
    requires var r := AppliedContact(Edit(ParseLines(raw), span), c, stamp); r.Some? ==> Writable(r.value.lines)
    ensures var r := AppliedContact(Edit(ParseLines(raw), span), c, stamp);
            r.Some? && span.begin >= -1 && r.value.span.begin >= -1 &&
            PropertyValue(ParseLines(DocumentBytes(r.value.lines)), r.value.span, "VERSION") ==
            PropertyValue(ParseLines(raw), span, "VERSION")
  {
    var e := Edit(ParseLines(raw), span);
    ContactThroughBytes(raw, eol, span, scope, c, stamp);
    var f := AppliedContact(e, c, stamp).value;
    VersionIsNoName();
    UnwrittenName(e, eol, scope, c, stamp, "VERSION", f);
    SameValue(ParseLines(DocumentBytes(f.lines)), f.lines, f.span, "VERSION");
    SameOwnValue(e, f, "VERSION");
  }

  lemma VersionIsNoName()
    ensures "VERSION" !in CARD_SCOPE
  {
  }

  lemma SameOwnValue(e: Edit, f: Edit, name: string)
    requires InRange(e.lines, e.span) && InRange(f.lines, f.span) && Own(f, name) == Own(e, name)
    ensures PropertyValue(f.lines, f.span, name) == PropertyValue(e.lines, e.span, name)
  {
    ValueIsFirst(f.lines, f.span, name);
    ValueIsFirst(e.lines, e.span, name);
  }

  // So the contact read from the written bytes is the contact applied, to the
  // letter, if and only if no line that has the type it is given shows another.
  lemma ReadFromBytesExact(raw: string, eol: string, span: Span, scope: Scope, c: Contact, stamp: string)
    requires StoredCard(raw, eol, span) && CardReady(Edit(ParseLines(raw), span), eol, scope, c, stamp)
    requires PlainKinds(NonEmpty(c.phones)) && PlainKinds(NonEmpty(c.emails))
    requires AllAskable(NonEmpty(c.phones)) && AllAskable(NonEmpty(c.emails))
    requires TextsClear(Edit(ParseLines(raw), span), c, stamp) && WithoutCR(c)
    requires var r := AppliedContact(Edit(ParseLines(raw), span), c, stamp); r.Some? ==> Writable(r.value.lines)
    ensures var e := Edit(ParseLines(raw), span);
            var r := AppliedContact(e, c, stamp);
            r.Some? && InRange(r.value.lines, r.value.span) &&
            var again := ParseLines(DocumentBytes(r.value.lines));
            IsFirstComponent(again, "VCARD", r.value.span) &&
            (ReadContact(Edit(again, r.value.span)) == Normal(c) <==>
             AllShow(Own(e, "TEL"), NonEmpty(c.phones)) && AllShow(Own(e, "EMAIL"), NonEmpty(c.emails)))
  {
    ContactThroughBytes(raw, eol, span, scope, c, stamp);
    ApplyThenReadExact(Edit(ParseLines(raw), span), eol, scope, c, stamp);
  }
}
