// The edit frame: whatever a run of edits does not name keeps its bytes, its
// order and its place around the component. internal/contentline/contentline.go
module Frame {
  import opened Text
  import opened Documents
  import Brackets
  import opened Edits

  // The depth never falls below zero inside and comes back to zero.
  predicate Balanced(body: seq<Line>) {
    Depth(body, 0, |body|) == 0 && NeverNegative(body, |body|)
  }

  predicate NeverNegative(body: seq<Line>, n: nat)
    requires n <= |body|
  {
    forall k | 0 <= k <= n :: Depth(body, 0, k) >= 0
  }

  lemma MatchedIsBalanced(lines: seq<Line>, b: nat, e: nat)
    requires b < e < |lines|
    ensures Matched(lines, b, e) <==> IsBegin(lines[b]) && IsEnd(lines[e]) && Balanced(lines[b + 1..e])
  {
    var body := lines[b + 1..e];
    forall k | 0 <= k <= |body|
      ensures DepthSince(lines, b, b + 1 + k) == Depth(body, 0, k)
    {
      Brackets.DepthSame(lines, b + 1, body, 0, k);
    }
    if NeverCloses(lines, b, e) {
      forall k | 0 <= k <= |body| ensures Depth(body, 0, k) >= 0 {
        assert DepthSince(lines, b, b + 1 + k) >= 0;
      }
    }
    if NeverNegative(body, |body|) {
      forall k | b < k <= e ensures DepthSince(lines, b, k) >= 0 {
        assert Depth(body, 0, k - b - 1) >= 0;
      }
    }
  }

  predicate Flat(body: seq<Line>) { FlatTo(body, |body|) }

  // None of the first n lines opens or closes anything.
  predicate FlatTo(body: seq<Line>, n: nat)
    requires n <= |body|
  {
    forall k | 0 <= k < n :: Bracket(body[k]) == 0
  }

  // ---------------------------------------------------- edits of a component

  function FindInside(body: seq<Line>, name: string, k: nat): (r: Option<nat>)
    ensures r.Some? ==> k <= r.value < |body| && body[r.value].parts.name == name && Direct(body, r.value)
    ensures forall i | k <= i < (if r.Some? then r.value else |body|) :: !(body[i].parts.name == name && Direct(body, i))
    decreases |body| - k
  {
    if k >= |body| then None
    else if body[k].parts.name == name && Direct(body, k) then Some(k)
    else FindInside(body, name, k + 1)
  }

  function RemoveInside(body: seq<Line>, k: nat): seq<Line>
    requires k < |body|
  {
    if body[k].parts.group == "" then body[..k] + body[k + 1..]
    else CompactedInside(body, body[k].parts.group, |body|)
  }

  function AddedLine(name: string, params: string, value: string, eol: string): Line {
    NewLine(name, params, value).(eol := eol)
  }

  function SetInside(body: seq<Line>, name: string, value: string, params: Option<string>, eol: string): seq<Line> {
    match FindInside(body, Upper(name), 0)
    case Some(k) =>
      if value == "" then RemoveInside(body, k)
      else body[k := EditLine(body[k], if params.Some? then params.value else body[k].parts.params, value)]
    case None =>
      if value == "" then body
      else body + [AddedLine(name, if params.Some? then params.value else "", value, eol)]
  }

  lemma FindIsInside(lines: seq<Line>, span: Span, name: string)
    requires InRange(lines, span)
    ensures var r := FindInside(Inside(lines, span), name, 0);
            FindFirst(lines, span, name) == if r.Some? then Some(span.begin + 1 + r.value) else None
  {
    var first, found := FindFirst(lines, span, name), FindInside(Inside(lines, span), name, 0);
    if first.Some? {
      ContainsInside(lines, span, first.value - span.begin - 1);
      assert Inside(lines, span)[first.value - span.begin - 1] == lines[first.value];
    }
    if found.Some? {
      ContainsInside(lines, span, found.value);
    }
  }

  // A write changes only the inside of the component it is addressed to.
  lemma SetIsInside(lines: seq<Line>, span: Span, name: string, value: string, params: Option<string>)
    requires InRange(lines, span)
    ensures SetProperty(lines, span, name, value, params) ==
            Exchange(lines, span, SetInside(Inside(lines, span), name, value, params, FirstEol(lines)))
  {
    FindIsInside(lines, span, Upper(name));
    match FindInside(Inside(lines, span), Upper(name), 0)
    case Some(k) =>
      SetFoundIsInside(lines, span, name, value, params, k);
    case None =>
      if value == "" {
        Unchanged(lines, span);
      } else {
        InsertIsInside(lines, span, NewLine(name, if params.Some? then params.value else "", value));
      }
  }

  lemma SetFoundIsInside(lines: seq<Line>, span: Span, name: string, value: string, params: Option<string>, k: nat)
    requires InRange(lines, span) && FindInside(Inside(lines, span), Upper(name), 0) == Some(k)
    requires FindFirst(lines, span, Upper(name)) == Some(span.begin + 1 + k)
    ensures SetProperty(lines, span, name, value, params) ==
            Exchange(lines, span, SetInside(Inside(lines, span), name, value, params, FirstEol(lines)))
  {
    if value == "" {
      RemoveIsInside(lines, span, k);
    } else {
      var l := Inside(lines, span)[k];
      ReplaceIsInside(lines, span, k, EditLine(l, if params.Some? then params.value else l.parts.params, value));
    }
  }

  lemma Unchanged(lines: seq<Line>, span: Span)
    requires InRange(lines, span)
    ensures Exchange(lines, span, Inside(lines, span)) == Edit(lines, span)
  {
    assert lines == lines[..span.begin + 1] + lines[span.begin + 1..span.end] + lines[span.end..];
  }

  lemma ReplaceIsInside(lines: seq<Line>, span: Span, k: nat, l: Line)
    requires InRange(lines, span) && k < |Inside(lines, span)|
    ensures lines[span.begin + 1 + k] == Inside(lines, span)[k]
    ensures Exchange(lines, span, Inside(lines, span)[k := l]) == Edit(lines[span.begin + 1 + k := l], span)
  {
    Unchanged(lines, span);
    var body := Inside(lines, span);
    assert lines[span.begin + 1 + k := l] == lines[..span.begin + 1] + body[k := l] + lines[span.end..];
  }

  lemma InsertIsInside(lines: seq<Line>, span: Span, l: Line)
    requires InRange(lines, span)
    ensures InsertLine(lines, span, l) ==
            Exchange(lines, span, Inside(lines, span) + [l.(eol := FirstEol(lines), added := true)])
  {
    assert lines[..span.end] == lines[..span.begin + 1] + Inside(lines, span);
  }

  lemma RemoveIsInside(lines: seq<Line>, span: Span, k: nat)
    requires InRange(lines, span) && k < |Inside(lines, span)|
    ensures RemoveLine(lines, span, span.begin + 1 + k) == Exchange(lines, span, RemoveInside(Inside(lines, span), k))
  {
    var group := Inside(lines, span)[k].parts.group;
    if group == "" {
      RemoveOneIsInside(lines, span, k);
    } else {
      CompactedIsInside(lines, span, group);
    }
  }

  lemma RemoveOneIsInside(lines: seq<Line>, span: Span, k: nat)
    requires InRange(lines, span) && k < |Inside(lines, span)|
    ensures var i, body := span.begin + 1 + k, Inside(lines, span);
            Edit(lines[..i] + lines[i + 1..], span.(end := span.end - 1)) == Exchange(lines, span, body[..k] + body[k + 1..])
  {
    var i, body := span.begin + 1 + k, Inside(lines, span);
    assert lines[..i] == lines[..span.begin + 1] + body[..k];
    assert lines[i + 1..] == body[k + 1..] + lines[span.end..];
  }

  // --------------------------------------------------- what an edit may touch

  // What a run of edits may touch: the names it writes, and the groups its
  // removals take along. No line of a spared name is in one of those groups,
  // and none of them is on both sides of a line that has the name of a head in
  // it.
  datatype Scope = Scope(names: set<string>, groups: set<string>, heads: set<string>, spared: set<string>)

  // These names and no group.
  function Ungrouped(names: set<string>): Scope { Scope(names, {}, {}, {}) }

  predicate Names(scope: Scope, l: Line) {
    l.parts.name in scope.names || (l.parts.group in scope.groups && l.parts.name !in scope.spared)
  }

  // Everything but the component's own lines in scope: lines of nested
  // components count as others whatever they are called.
  function Others(scope: Scope): Choice {
    (direct: bool, l: Line) => !(direct && Names(scope, l))
  }

  predicate PlainNames(scope: Scope) {
    "BEGIN" !in scope.names && "END" !in scope.names && "" !in scope.groups
  }

  predicate Scoped(body: seq<Line>, scope: Scope) { PlainNames(scope) && Balanced(body) }

  // What a removal of line k takes along is in scope, and is its group and
  // nothing but its group: no bracket is read twice with an effect.
  predicate CanGo(body: seq<Line>, scope: Scope, k: nat)
    requires k < |body|
  {
    body[k].parts.group in {""} || GroupCanGo(body, scope, body[k].parts.group)
  }

  predicate GroupCanGo(body: seq<Line>, scope: Scope, group: string) {
    group in scope.groups && PlainGroup(body, group) && NoEcho(body, group, |body|) && NoneSpared(body, scope, group)
  }

  predicate NoneSpared(body: seq<Line>, scope: Scope, group: string) {
    forall j | 0 <= j < |body| && body[j].parts.group == group :: body[j].parts.name !in scope.spared
  }

  // A component in which the groups in scope stand before anything nested, so
  // that they can go in whatever order they are removed.
  predicate Orderly(body: seq<Line>, scope: Scope, n: nat)
    requires n <= |body|
  {
    forall k | 0 <= k < n :: Fits(body, k, body[k], scope)
  }

  predicate Fits(body: seq<Line>, n: nat, l: Line, scope: Scope)
    requires n <= |body|
  {
    l.parts.group in scope.groups ==>
      FlatTo(body, n) && Bracket(l) == 0 && l.parts.name !in scope.spared &&
      (l.parts.name in scope.heads ==> Clear(body, l.parts.group, l.parts.name, n))
  }

  // Among the first n lines none of this name stands at or behind a line of
  // this group.
  predicate Clear(body: seq<Line>, group: string, name: string, n: nat)
    requires n <= |body|
  {
    forall j, i | 0 <= j <= i < n :: !(body[j].parts.group == group && body[i].parts.name == name)
  }

  predicate GroupAbsent(lines: seq<Line>, group: string, n: nat)
    requires n <= |lines|
  {
    forall i | 0 <= i < n :: lines[i].parts.group != group
  }

  lemma OrderlyCanGo(body: seq<Line>, scope: Scope, k: nat)
    requires Orderly(body, scope, |body|) && k < |body| && body[k].parts.group in scope.groups + {""}
    ensures CanGo(body, scope, k)
  {
    var group := body[k].parts.group;
    if group != "" {
      assert forall j | 0 <= j < |body| && body[j].parts.group == group :: Fits(body, j, body[j], scope);
      EarlyHasNoEcho(body, group, |body|);
    }
  }

  // The lines that go when line k is removed.
  function Dropped(body: seq<Line>, k: nat): set<nat>
    requires k < |body|
  {
    if body[k].parts.group == "" then {k} else GroupLines(body, body[k].parts.group, |body|)
  }

  // A removal that can go drops just those.
  lemma RemovedIsDrop(body: seq<Line>, scope: Scope, k: nat)
    requires PlainNames(scope) && k < |body| && Direct(body, k) && body[k].parts.name in scope.names && CanGo(body, scope, k)
    ensures RemoveInside(body, k) == Drop(body, Dropped(body, k), |body|)
    ensures k in Dropped(body, k) && Removable(body, scope, Dropped(body, k))
    ensures forall j | j in Dropped(body, k) && j != k :: body[j].parts.group == body[k].parts.group != ""
  {
    var group := body[k].parts.group;
    NamedIsPlain(scope, body[k]);
    if group == "" {
      DropsJustOne(body, k);
    } else {
      RemoveGroupExact(body, group, |body|);
      CompactedIsDrop(body, group, |body|);
      GroupLinesBelow(body, group, |body|);
    }
  }

  lemma DropsJustOne(body: seq<Line>, k: nat)
    requires k < |body|
    ensures Drop(body, {k}, |body|) == body[..k] + body[k + 1..]
  {
    var n := |body|;
    DropOne(body, k, n);
    assert body[k + 1..n] == body[k + 1..];
  }

  lemma NamedIsPlain(scope: Scope, l: Line)
    requires PlainNames(scope) && l.parts.name in scope.names
    ensures Bracket(l) == 0
  {
  }

  // Nothing out of scope has changed, and what was orderly still is.
  predicate KeepsOthers(body: seq<Line>, next: seq<Line>, scope: Scope) {
    Scoped(next, scope) && Select(next, Others(scope), |next|) == Select(body, Others(scope), |body|) &&
    (Orderly(body, scope, |body|) ==> Orderly(next, scope, |next|))
  }

  lemma ReplaceKeeps(body: seq<Line>, scope: Scope, k: nat, params: string, value: string)
    requires Scoped(body, scope) && k < |body| && body[k].parts.name in scope.names && Direct(body, k)
    ensures KeepsOthers(body, body[k := EditLine(body[k], params, value)], scope)
  {
    var l := EditLine(body[k], params, value);
    SelectReplace(body, k, l, Others(scope), |body|);
    ReplaceScoped(body, scope, k, l);
    if Orderly(body, scope, |body|) {
      SameIsOrderly(body, body[k := l], scope);
    }
  }

  // Names and groups are all that order depends on.
  lemma SameIsOrderly(body: seq<Line>, next: seq<Line>, scope: Scope)
    requires Orderly(body, scope, |body|) && |next| == |body|
    requires forall i | 0 <= i < |body| ::
               next[i].parts.name == body[i].parts.name && next[i].parts.group == body[i].parts.group
    ensures Orderly(next, scope, |next|)
  {
    forall i | 0 <= i < |next| ensures Fits(next, i, next[i], scope) {
      assert Fits(body, i, body[i], scope);
    }
  }

  lemma ReplaceScoped(body: seq<Line>, scope: Scope, k: nat, l: Line)
    requires Scoped(body, scope) && k < |body| && Bracket(l) == Bracket(body[k])
    ensures Scoped(body[k := l], scope)
  {
    ReplaceDepth(body, k, l);
    var next := body[k := l];
    forall n | 0 <= n <= |next| ensures Depth(next, 0, n) >= 0 && Depth(next, 0, n) == Depth(body, 0, n) {
      assert Depth(body, 0, n) >= 0;
    }
  }

  lemma ReplaceDepth(body: seq<Line>, k: nat, l: Line)
    requires k < |body| && Bracket(l) == Bracket(body[k])
    ensures forall n | 0 <= n <= |body| :: Depth(body[k := l], 0, n) == Depth(body, 0, n)
  {
    forall n | 0 <= n <= |body| ensures Depth(body[k := l], 0, n) == Depth(body, 0, n) {
      Brackets.DepthSame(body[k := l], 0, body, 0, n);
    }
  }

  lemma AppendKeeps(body: seq<Line>, scope: Scope, l: Line)
    requires Scoped(body, scope) && l.parts.name in scope.names && l.parts.group == ""
    ensures KeepsOthers(body, body + [l], scope)
  {
    NamedIsPlain(scope, l);
    SelectAppend(body, l, Others(scope));
    AppendBalanced(body, l);
    if Orderly(body, scope, |body|) {
      AppendOrderly(body, scope, l);
    }
  }

  lemma AppendOrderly(body: seq<Line>, scope: Scope, l: Line)
    requires Orderly(body, scope, |body|) && Fits(body, |body|, l, scope)
    ensures Orderly(body + [l], scope, |body| + 1)
  {
    var next := body + [l];
    forall k | 0 <= k < |next| ensures Fits(next, k, next[k], scope) {
      assert k < |body| ==> Fits(body, k, body[k], scope);
    }
  }

  // A set of the component's own plain lines.
  predicate Removable(body: seq<Line>, scope: Scope, drop: set<nat>) {
    forall k | k in drop :: k < |body| && Bracket(body[k]) == 0 && Direct(body, k) && Names(scope, body[k])
  }

  lemma {:induction false} DropBalanced(body: seq<Line>, scope: Scope, drop: set<nat>, n: nat)
    requires n <= |body| && Removable(body, scope, drop) && NeverNegative(body, n)
    ensures var next := Drop(body, drop, n); NeverNegative(next, |next|)
  {
    if n > 0 {
      DropBalanced(body, scope, drop, n - 1);
      if n - 1 !in drop {
        DropDepth(body, drop, n - 1);
        AppendBalanced(Drop(body, drop, n - 1), body[n - 1]);
        assert Depth(body, 0, n) >= 0;
      }
    }
  }

  lemma AppendBalanced(body: seq<Line>, l: Line)
    requires NeverNegative(body, |body|)
    ensures var next := body + [l];
            Depth(next, 0, |next|) == Depth(body, 0, |body|) + Bracket(l) &&
            (Depth(next, 0, |next|) >= 0 ==> NeverNegative(next, |next|))
  {
    var next := body + [l];
    forall k | 0 <= k <= |body| ensures Depth(next, 0, k) == Depth(body, 0, k) {
      Brackets.DepthSame(next, 0, body, 0, k);
    }
  }

  lemma {:induction false} DropOrderly(body: seq<Line>, scope: Scope, drop: set<nat>, n: nat)
    requires n <= |body| && Orderly(body, scope, n)
    ensures var next := Drop(body, drop, n); Orderly(next, scope, |next|) && (FlatTo(body, n) ==> Flat(next))
  {
    if n > 0 {
      DropOrderly(body, scope, drop, n - 1);
      if n - 1 !in drop {
        assert Fits(body, n - 1, body[n - 1], scope);
        DropClear(body, drop, body[n - 1].parts.group, body[n - 1].parts.name, n - 1);
        AppendOrderly(Drop(body, drop, n - 1), scope, body[n - 1]);
      }
    }
  }

  lemma {:induction false} DropClear(body: seq<Line>, drop: set<nat>, group: string, name: string, n: nat)
    requires n <= |body|
    ensures Clear(body, group, name, n) ==> Clear(Drop(body, drop, n), group, name, |Drop(body, drop, n)|)
    ensures GroupAbsent(body, group, n) ==> GroupAbsent(Drop(body, drop, n), group, |Drop(body, drop, n)|)
  {
    if n > 0 {
      DropClear(body, drop, group, name, n - 1);
      if Clear(body, group, name, n) && n - 1 !in drop && body[n - 1].parts.name == name {
        assert forall j | 0 <= j < n :: !(body[j].parts.group == group && body[n - 1].parts.name == name);
        assert GroupAbsent(body, group, n);
      }
    }
  }

  lemma DropKeeps(body: seq<Line>, scope: Scope, drop: set<nat>)
    requires Scoped(body, scope) && Removable(body, scope, drop)
    ensures KeepsOthers(body, Drop(body, drop, |body|), scope)
  {
    DropBalanced(body, scope, drop, |body|);
    DropDepth(body, drop, |body|);
    SelectDrop(body, drop, Others(scope), |body|);
    if Orderly(body, scope, |body|) {
      DropOrderly(body, scope, drop, |body|);
    }
  }

  lemma RemoveKeeps(body: seq<Line>, scope: Scope, k: nat)
    requires Scoped(body, scope) && k < |body| && body[k].parts.name in scope.names && Direct(body, k)
    requires CanGo(body, scope, k)
    ensures KeepsOthers(body, RemoveInside(body, k), scope)
  {
    RemovedIsDrop(body, scope, k);
    DropKeeps(body, scope, Dropped(body, k));
  }

  // Where a group stands before anything nested there is no echo.
  lemma EarlyHasNoEcho(body: seq<Line>, group: string, n: nat)
    requires n <= |body|
    requires forall j | 0 <= j < |body| && body[j].parts.group == group :: FlatTo(body, j) && Bracket(body[j]) == 0
    ensures PlainGroup(body, group) && NoEcho(body, group, n)
  {
    forall j | 0 <= j < n && body[j].parts.group == group ensures QuietAt(body, group, j) {
      GroupLinesFit(body, group, j);
      PlainGroupDepth(body, group, j);
      FlatDepth(body, 0, j);
      FlatDepth(body, j - |GroupLines(body, group, j)|, j);
    }
  }

  // In a component that nests nothing, removing a grouped line in place is a
  // filter: the group's lines go, all others keep their order, and the END
  // line moves up by the number dropped.
  lemma RemoveIsFilter(lines: seq<Line>, span: Span, k: nat)
    requires InRange(lines, span) && k < |Inside(lines, span)| && Flat(Inside(lines, span))
    requires Inside(lines, span)[k].parts.group != ""
    ensures var body := Inside(lines, span);
            var kept := OutsideGroup(body, body[k].parts.group, |body|);
            RemoveLine(lines, span, span.begin + 1 + k) ==
            Edit(lines[..span.begin + 1] + kept + lines[span.end..], span.(end := span.end - (|body| - |kept|)))
  {
    var body := Inside(lines, span);
    var group := body[k].parts.group;
    EarlyHasNoEcho(body, group, |body|);
    RemoveGroupExact(body, group, |body|);
    CompactedIsDrop(body, group, |body|);
    DropIsFilter(body, group, |body|, GroupLines(body, group, |body|));
    RemoveIsInside(lines, span, k);
  }

  lemma {:induction false} DropIsFilter(body: seq<Line>, group: string, n: nat, drop: set<nat>)
    requires Flat(body) && n <= |body| && drop == GroupLines(body, group, |body|)
    ensures Drop(body, drop, n) == OutsideGroup(body, group, n)
  {
    if n > 0 {
      DropIsFilter(body, group, n - 1, drop);
      GroupLinesBelow(body, group, |body|);
      FlatDepth(body, 0, n - 1);
    }
  }

  lemma {:induction false} FlatDepth(body: seq<Line>, i: nat, j: nat)
    requires j <= |body| && FlatTo(body, j)
    ensures Depth(body, i, j) == 0
    decreases j
  {
    if i < j {
      FlatDepth(body, i, j - 1);
    }
  }

  lemma {:induction false} GroupLinesFit(body: seq<Line>, group: string, n: nat)
    requires n <= |body|
    ensures |GroupLines(body, group, n)| <= n
  {
    if n > 0 {
      GroupLinesFit(body, group, n - 1);
    }
  }

  // A write that removes nothing, or something that can go.
  predicate CanPut(body: seq<Line>, scope: Scope, name: string, value: string) {
    value == "" ==>
      var found := FindInside(body, Upper(name), 0);
      found.Some? ==> CanGo(body, scope, found.value)
  }

  lemma SetKeeps(body: seq<Line>, scope: Scope, name: string, value: string, params: Option<string>, eol: string)
    requires Scoped(body, scope) && Upper(name) in scope.names && CanPut(body, scope, name, value)
    ensures KeepsOthers(body, SetInside(body, name, value, params, eol), scope)
  {
    match FindInside(body, Upper(name), 0)
    case Some(k) =>
      if value == "" {
        RemoveKeeps(body, scope, k);
      } else {
        ReplaceKeeps(body, scope, k, if params.Some? then params.value else body[k].parts.params, value);
      }
    case None =>
      if value != "" {
        AppendKeeps(body, scope, AddedLine(name, if params.Some? then params.value else "", value, eol));
      }
  }

  // ------------------------------------------------------------ runs of edits

  // The edits a caller makes: the three forms of Set, a new line before the
  // END, and the rewriting of one line in place.
  datatype Op =
    | Put(name: string, value: string, newParams: Option<string>)
    | Add(name: string, params: string, value: string)
    | Rewrite(at: nat, params: string, value: string)

  function Apply(e: Edit, op: Op): Edit
    requires InRange(e.lines, e.span)
  {
    match op
    case Put(name, value, params) => SetProperty(e.lines, e.span, name, value, params)
    case Add(name, params, value) => InsertLine(e.lines, e.span, NewLine(name, params, value))
    case Rewrite(at, params, value) =>
      if at < |e.lines| then Edit(e.lines[at := EditLine(e.lines[at], params, value)], e.span) else e
  }

  // An edit stays within the names of its scope, and what it takes along within
  // the groups.
  predicate Within(e: Edit, op: Op, scope: Scope) {
    InRange(e.lines, e.span) &&
    match op
    case Put(name, value, _) => Upper(name) in scope.names && CanPut(Inside(e.lines, e.span), scope, name, value)
    case Add(name, _, _) => Upper(name) in scope.names
    case Rewrite(at, _, _) =>
      at < |e.lines| && e.lines[at].parts.name in scope.names && Contains(e.lines, e.span, at)
  }

  predicate RunWithin(e: Edit, ops: seq<Op>, scope: Scope)
    decreases |ops|
  {
    InRange(e.lines, e.span) &&
    (ops != [] ==> Within(e, ops[0], scope) && RunWithin(Apply(e, ops[0]), ops[1..], scope))
  }

  function Run(e: Edit, ops: seq<Op>, scope: Scope): Edit
    requires RunWithin(e, ops, scope)
    decreases |ops|
  {
    if ops == [] then e else Run(Apply(e, ops[0]), ops[1..], scope)
  }

  // A component whose inside can be in scope.
  predicate Opened(e: Edit, scope: Scope) {
    InRange(e.lines, e.span) && Scoped(Inside(e.lines, e.span), scope)
  }

  predicate Ordered(e: Edit, scope: Scope) {
    InRange(e.lines, e.span) && Orderly(Inside(e.lines, e.span), scope, |Inside(e.lines, e.span)|)
  }

  // An edit has kept to its scope.
  predicate Kept(e: Edit, f: Edit, scope: Scope) {
    Opened(f, scope) && SameFrame(e, f, scope) && (Ordered(e, scope) ==> Ordered(f, scope))
  }

  // What both documents share: everything around the component, and inside it
  // every line out of scope, in order.
  predicate SameFrame(e: Edit, f: Edit, scope: Scope) {
    InRange(e.lines, e.span) && InRange(f.lines, f.span) && f.span.begin == e.span.begin &&
    e.lines[..e.span.begin + 1] == f.lines[..f.span.begin + 1] &&
    e.lines[e.span.end..] == f.lines[f.span.end..] &&
    OtherLines(e, scope) == OtherLines(f, scope)
  }

  function OtherLines(e: Edit, scope: Scope): seq<Line>
    requires InRange(e.lines, e.span)
  {
    var body := Inside(e.lines, e.span);
    Select(body, Others(scope), |body|)
  }

  lemma ExchangeFrames(e: Edit, body: seq<Line>)
    requires InRange(e.lines, e.span)
    ensures var f := Exchange(e.lines, e.span, body);
            InRange(f.lines, f.span) && Inside(f.lines, f.span) == body &&
            f.lines[..f.span.begin + 1] == e.lines[..e.span.begin + 1] &&
            f.lines[f.span.end..] == e.lines[e.span.end..]
  {
    var p := e.span.begin + 1;
    var f := Exchange(e.lines, e.span, body);
    assert f.lines[..p] == e.lines[..p];
    assert f.lines[f.span.end..] == e.lines[e.span.end..];
    assert f.lines[p..f.span.end] == body;
  }

  lemma ApplyKeeps(e: Edit, op: Op, scope: Scope)
    requires Opened(e, scope) && Within(e, op, scope)
    ensures Kept(e, Apply(e, op), scope)
  {
    match op
    case Put(name, value, params) => PutKeeps(e, name, value, params, scope);
    case Add(name, params, value) => AddKeeps(e, name, params, value, scope, Apply(e, op));
    case Rewrite(at, params, value) => RewriteKeeps(e, at, params, value, scope);
  }

  // An edit that leaves the component in scope and its other lines as they
  // were keeps the frame.
  lemma ExchangeKeeps(e: Edit, body: seq<Line>, f: Edit, scope: Scope)
    requires Opened(e, scope) && KeepsOthers(Inside(e.lines, e.span), body, scope)
    requires f == Exchange(e.lines, e.span, body)
    ensures Kept(e, f, scope)
  {
    ExchangeFrames(e, body);
  }

  lemma PutKeeps(e: Edit, name: string, value: string, params: Option<string>, scope: Scope)
    requires Opened(e, scope) && Upper(name) in scope.names && CanPut(Inside(e.lines, e.span), scope, name, value)
    ensures var f := SetProperty(e.lines, e.span, name, value, params); Kept(e, f, scope)
  {
    var body, eol := Inside(e.lines, e.span), FirstEol(e.lines);
    SetKeeps(body, scope, name, value, params, eol);
    SetIsInside(e.lines, e.span, name, value, params);
    ExchangeKeeps(e, SetInside(body, name, value, params, eol), SetProperty(e.lines, e.span, name, value, params), scope);
  }

  lemma AddKeeps(e: Edit, name: string, params: string, value: string, scope: Scope, f: Edit)
    requires Opened(e, scope) && Upper(name) in scope.names
    requires f == InsertLine(e.lines, e.span, NewLine(name, params, value))
    ensures Kept(e, f, scope)
  {
    var body := Inside(e.lines, e.span);
    var l := AddedLine(name, params, value, FirstEol(e.lines));
    AppendKeeps(body, scope, l);
    InsertIsInside(e.lines, e.span, NewLine(name, params, value));
    ExchangeKeeps(e, body + [l], f, scope);
  }

  lemma RewriteKeeps(e: Edit, at: nat, params: string, value: string, scope: Scope)
    requires Opened(e, scope) && at < |e.lines| && e.lines[at].parts.name in scope.names && Contains(e.lines, e.span, at)
    ensures var f := Edit(e.lines[at := EditLine(e.lines[at], params, value)], e.span); Kept(e, f, scope)
  {
    var k := at - e.span.begin - 1;
    ContainsInside(e.lines, e.span, k);
    RewriteInsideKeeps(e, k, Inside(e.lines, e.span)[k], params, value, scope);
  }

  lemma RewriteInsideKeeps(e: Edit, k: nat, l: Line, params: string, value: string, scope: Scope)
    requires Opened(e, scope) && k < |Inside(e.lines, e.span)| && l == Inside(e.lines, e.span)[k]
    requires l.parts.name in scope.names && Direct(Inside(e.lines, e.span), k)
    ensures var f := Edit(e.lines[e.span.begin + 1 + k := EditLine(l, params, value)], e.span);
            Kept(e, f, scope)
  {
    var body := Inside(e.lines, e.span);
    ReplaceKeeps(body, scope, k, params, value);
    ReplaceIsInside(e.lines, e.span, k, EditLine(l, params, value));
    var next := body[k := EditLine(l, params, value)];
    ExchangeKeeps(e, next, Exchange(e.lines, e.span, next), scope);
  }

  lemma {:induction false} RunKeeps(e: Edit, ops: seq<Op>, scope: Scope)
    requires Opened(e, scope) && RunWithin(e, ops, scope)
    ensures Kept(e, Run(e, ops, scope), scope)
    decreases |ops|
  {
    if ops != [] {
      ApplyKeeps(e, ops[0], scope);
      RunKeeps(Apply(e, ops[0]), ops[1..], scope);
    }
  }

  // The span still names the same BEGIN and END lines, still matched.
  lemma SpanStays(e: Edit, ops: seq<Op>, scope: Scope)
    requires e.span.begin >= 0 && Opened(e, scope) && RunWithin(e, ops, scope)
    requires Matched(e.lines, e.span.begin, e.span.end)
    ensures var f := Run(e, ops, scope);
            0 <= f.span.begin < f.span.end < |f.lines| && Matched(f.lines, f.span.begin, f.span.end) &&
            f.lines[f.span.begin] == e.lines[e.span.begin] && f.lines[f.span.end] == e.lines[e.span.end]
  {
    RunKeeps(e, ops, scope);
    FrameKeepsSpan(e, Run(e, ops, scope), scope);
  }

  lemma FrameKeepsSpan(e: Edit, f: Edit, scope: Scope)
    requires e.span.begin >= 0 && Opened(e, scope) && Opened(f, scope) && SameFrame(e, f, scope)
    requires Matched(e.lines, e.span.begin, e.span.end)
    ensures 0 <= f.span.begin < f.span.end < |f.lines| && Matched(f.lines, f.span.begin, f.span.end)
    ensures f.lines[f.span.begin] == e.lines[e.span.begin] && f.lines[f.span.end] == e.lines[e.span.end]
  {
    SameEnds(e, f, scope);
    MatchedIsBalanced(f.lines, f.span.begin, f.span.end);
  }

  lemma SameEnds(e: Edit, f: Edit, scope: Scope)
    requires SameFrame(e, f, scope) && 0 <= e.span.begin && e.span.end < |e.lines|
    ensures f.span.end < |f.lines|
    ensures f.lines[f.span.begin] == e.lines[e.span.begin] && f.lines[f.span.end] == e.lines[e.span.end]
  {
    assert e.lines[..e.span.begin + 1][e.span.begin] == f.lines[..f.span.begin + 1][f.span.begin];
    assert |e.lines[e.span.end..]| == |f.lines[f.span.end..]|;
    assert e.lines[e.span.end..][0] == f.lines[f.span.end..][0];
  }

  // ------------------------------------------------------------------- bytes

  // What each line contributes to the bytes.
  function EachBytes(lines: seq<Line>, eol: string): (r: seq<string>)
    ensures |r| == |lines|
    ensures forall i | 0 <= i < |r| :: r[i] == LineBytes(lines[i], eol)
  {
    seq(|lines|, i requires 0 <= i < |lines| => LineBytes(lines[i], eol))
  }

  function Concat(parts: seq<string>): string {
    if parts == [] then "" else parts[0] + Concat(parts[1..])
  }

  lemma {:induction false} BytesAreConcat(lines: seq<Line>, eol: string)
    ensures Render(lines, eol) == Concat(EachBytes(lines, eol))
  {
    if lines != [] {
      BytesAreConcat(lines[1..], eol);
      assert EachBytes(lines, eol)[1..] == EachBytes(lines[1..], eol);
    }
  }

  lemma {:induction false} RenderConcat(a: seq<Line>, b: seq<Line>, eol: string)
    ensures Render(a + b, eol) == Render(a, eol) + Render(b, eol)
  {
    if a == [] {
      assert a + b == b;
    } else {
      assert (a + b)[1..] == a[1..] + b;
      RenderConcat(a[1..], b, eol);
    }
  }

  // The bytes of the two documents are the same before the component and
  // behind it, and inside it so are those of every line out of scope, in
  // their order.
  predicate SameBytesAround(e: Edit, f: Edit, scope: Scope, eol: string) {
    InRange(e.lines, e.span) && InRange(f.lines, f.span) &&
    DocumentBytes(e.lines) == BytesAround(e, Inside(e.lines, e.span), eol) &&
    DocumentBytes(f.lines) == BytesAround(e, Inside(f.lines, f.span), eol) &&
    EachBytes(OtherLines(f, scope), eol) == EachBytes(OtherLines(e, scope), eol)
  }

  // A component's lines between what stands before and behind it in a document.
  function BytesAround(e: Edit, body: seq<Line>, eol: string): string
    requires InRange(e.lines, e.span)
  {
    Render(e.lines[..e.span.begin + 1], eol) + Concat(EachBytes(body, eol)) + Render(e.lines[e.span.end..], eol)
  }

  // In a document whose first line is terminated, a run of edits of one of
  // its components leaves all other bytes alone.
  lemma RunKeepsBytes(e: Edit, ops: seq<Op>, scope: Scope)
    requires Opened(e, scope) && RunWithin(e, ops, scope)
    requires e.span.begin >= 0 && e.lines[0].eol != ""
    ensures SameBytesAround(e, Run(e, ops, scope), scope, e.lines[0].eol)
  {
    RunKeeps(e, ops, scope);
    BytesStay(e, Run(e, ops, scope), scope);
  }

  lemma BytesStay(e: Edit, f: Edit, scope: Scope)
    requires SameFrame(e, f, scope) && e.span.begin >= 0 && e.lines[0].eol != ""
    ensures SameBytesAround(e, f, scope, e.lines[0].eol)
  {
    assert f.lines[0] == f.lines[..f.span.begin + 1][0] == e.lines[..e.span.begin + 1][0] == e.lines[0];
    BytesInThree(e, e.lines[0].eol);
    BytesInThree(f, e.lines[0].eol);
  }

  lemma BytesInThree(e: Edit, eol: string)
    requires InRange(e.lines, e.span)
    ensures Render(e.lines, eol) == BytesAround(e, Inside(e.lines, e.span), eol)
  {
    var p := e.span.begin + 1;
    var body := Inside(e.lines, e.span);
    assert e.lines == e.lines[..p] + (body + e.lines[e.span.end..]);
    RenderConcat(e.lines[..p], body + e.lines[e.span.end..], eol);
    RenderConcat(body, e.lines[e.span.end..], eol);
    BytesAreConcat(body, eol);
  }
}
