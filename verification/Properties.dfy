// A component as its reader sees it: for each name the lines that carry it,
// in order. What a write does to one name, and that it leaves the others be.
module Properties {
  import opened Text
  import Escaping
  import opened Documents
  import Brackets
  import opened Edits
  import opened Frame

  function ByName(name: string): Choice {
    (direct: bool, l: Line) => direct && l.parts.name == name
  }

  // The component's own lines of this name.
  function LinesOf(body: seq<Line>, name: string): seq<Line> { Select(body, ByName(name), |body|) }

  // ------------------------------------------------- editing a chosen line

  // The two selections agree but for one line.
  predicate Updated(s: seq<Line>, t: seq<Line>, r: nat, x: Line, l: Line) {
    r < |s| && s[r] == x && t == s[r := l]
  }

  lemma {:induction false} SelectUpdate(body: seq<Line>, choice: Choice, k: nat, l: Line, n: nat)
    requires k < n <= |body| && Bracket(l) == Bracket(body[k])
    requires choice(Direct(body, k), body[k]) && choice(Direct(body, k), l)
    ensures Updated(Select(body, choice, n), Select(body[k := l], choice, n), |Select(body, choice, k)|, body[k], l)
  {
    var next := body[k := l];
    Brackets.DepthAlike(next, body, 0, n - 1);
    if n == k + 1 {
      SelectPrefix(next, body, choice, k);
      UpdateLast(Select(body, choice, k), body[k], l);
    } else {
      SelectUpdate(body, choice, k, l, n - 1);
      UpdateInner(Select(body, choice, n - 1), Select(next, choice, n - 1), |Select(body, choice, k)|, body[k], l, body[n - 1]);
      assert next[n - 1] == body[n - 1];
    }
  }

  lemma UpdateLast(s: seq<Line>, x: Line, l: Line)
    ensures Updated(s + [x], s + [l], |s|, x, l)
  {
  }

  lemma UpdateInner(s: seq<Line>, t: seq<Line>, r: nat, x: Line, l: Line, last: Line)
    requires Updated(s, t, r, x, l)
    ensures Updated(s + [last], t + [last], r, x, l)
  {
  }

  function LeftOut(s: seq<Line>, r: nat): seq<Line>
    requires r < |s|
  {
    s[..r] + s[r + 1..]
  }

  // Dropping a set of lines with just one chosen line in it takes that line
  // out of the choice.
  lemma {:induction false} SelectDropOne(body: seq<Line>, drop: set<nat>, choice: Choice, k: nat, n: nat)
    requires k < |body| && n <= |body| && k in drop && choice(Direct(body, k), body[k])
    requires forall j | j in drop && j < |body| :: Bracket(body[j]) == 0 && (choice(Direct(body, j), body[j]) ==> j == k)
    ensures var kept, r := Drop(body, drop, n), |Select(body, choice, k)|;
            if n <= k then Select(kept, choice, |kept|) == Select(body, choice, n)
            else r < |Select(body, choice, n)| && Select(body, choice, n)[r] == body[k] &&
                 Select(kept, choice, |kept|) == LeftOut(Select(body, choice, n), r)
  {
    if n > 0 {
      var m := n - 1;
      var was, left := Select(body, choice, m), Drop(body, drop, m);
      SelectDropOne(body, drop, choice, k, m);
      DropDepth(body, drop, m);
      SelectAppend(left, body[m], choice);
      if m > k && choice(Direct(body, m), body[m]) {
        WithoutAppend(was, |Select(body, choice, k)|, body[m]);
      } else if m == k {
        WithoutLast(was, body[k]);
      }
    }
  }

  lemma WithoutAppend(s: seq<Line>, r: nat, l: Line)
    requires r < |s|
    ensures LeftOut(s + [l], r) == LeftOut(s, r) + [l]
  {
  }

  lemma WithoutLast(s: seq<Line>, l: Line)
    ensures LeftOut(s + [l], |s|) == s
  {
  }

  lemma {:induction false} NoneBefore(body: seq<Line>, name: string, k: nat)
    requires k <= |body| && forall i | 0 <= i < k :: !(body[i].parts.name == name && Direct(body, i))
    ensures Select(body, ByName(name), k) == []
  {
    if k > 0 {
      NoneBefore(body, name, k - 1);
    }
  }

  // -------------------------------------------------------- writing a property

  // The group that goes with the first line of a name when it is removed, and
  // what is left of some lines when it has gone.
  function GoesAlong(own: seq<Line>, value: string): string {
    if value == "" && own != [] then own[0].parts.group else ""
  }

  function Outside(lines: seq<Line>, group: string): seq<Line> {
    if group == "" then lines else OutsideGroup(lines, group, |lines|)
  }

  // What a write does to the lines of its own name.
  function PutLine(lines: seq<Line>, name: string, value: string, params: Option<string>, eol: string): seq<Line> {
    if lines == [] then
      if value == "" then [] else [AddedLine(name, if params.Some? then params.value else "", value, eol)]
    else if value == "" then
      if lines[0].parts.group == "" then lines[1..] else Outside(lines, lines[0].parts.group)
    else [EditLine(lines[0], if params.Some? then params.value else lines[0].parts.params, value)] + lines[1..]
  }

  // Dropping a group's own lines leaves of each name those outside the group.
  lemma {:induction false} SelectOutside(body: seq<Line>, group: string, drop: set<nat>, name: string, n: nat)
    requires n <= |body| && forall j | j in drop && j < n :: Bracket(body[j]) == 0
    requires forall j | 0 <= j < n && Direct(body, j) :: j in drop <==> body[j].parts.group == group
    ensures var kept, own := Drop(body, drop, n), Select(body, ByName(name), n);
            Select(kept, ByName(name), |kept|) == OutsideGroup(own, group, |own|)
  {
    if n > 0 {
      SelectOutside(body, group, drop, name, n - 1);
      DropDepth(body, drop, n - 1);
      SelectAppend(Drop(body, drop, n - 1), body[n - 1], ByName(name));
      OutsideGroupAppend(Select(body, ByName(name), n - 1), body[n - 1], group);
    }
  }

  lemma OutsideGroupAppend(s: seq<Line>, l: Line, group: string)
    ensures var next := s + [l];
            OutsideGroup(next, group, |next|) ==
            if l.parts.group == group then OutsideGroup(s, group, |s|) else OutsideGroup(s, group, |s|) + [l]
  {
    OutsideGroupPrefix(s, s + [l], group, |s|);
  }

  lemma {:induction false} OutsideGroupPrefix(s: seq<Line>, t: seq<Line>, group: string, n: nat)
    requires n <= |s| && n <= |t| && forall i | 0 <= i < n :: s[i] == t[i]
    ensures OutsideGroup(s, group, n) == OutsideGroup(t, group, n)
  {
    if n > 0 {
      OutsideGroupPrefix(s, t, group, n - 1);
    }
  }

  // Removing a line with its group.
  lemma GroupGoes(body: seq<Line>, scope: Scope, k: nat, name: string)
    requires PlainNames(scope) && k < |body| && Direct(body, k) && body[k].parts.name in scope.names && CanGo(body, scope, k)
    requires body[k].parts.group != ""
    ensures LinesOf(RemoveInside(body, k), name) == Outside(LinesOf(body, name), body[k].parts.group)
  {
    RemovedIsDrop(body, scope, k);
    GroupLinesBelow(body, body[k].parts.group, |body|);
    SelectOutside(body, body[k].parts.group, Dropped(body, k), name, |body|);
  }

  lemma LineGoes(body: seq<Line>, k: nat, name: string)
    requires k < |body| && Direct(body, k) && Bracket(body[k]) == 0 && body[k].parts.group == ""
    requires Select(body, ByName(body[k].parts.name), k) == []
    ensures var own, next := LinesOf(body, name), RemoveInside(body, k);
            LinesOf(next, name) == if body[k].parts.name == name then (if own == [] then [] else own[1..]) else own
  {
    DropsJustOne(body, k);
    if body[k].parts.name == name {
      SelectDropOne(body, {k}, ByName(name), k, |body|);
      assert LeftOut(LinesOf(body, name), 0) == LinesOf(body, name)[1..];
    } else {
      SelectDrop(body, {k}, ByName(name), |body|);
    }
  }

  // A write changes the first line of its name, adds one where there is none,
  // or takes the first away, and with it the lines of its group.
  lemma PutOwn(body: seq<Line>, scope: Scope, name: string, value: string, params: Option<string>, eol: string)
    requires Scoped(body, scope) && Upper(name) in scope.names && CanPut(body, scope, name, value)
    ensures LinesOf(SetInside(body, name, value, params, eol), Upper(name)) ==
            PutLine(LinesOf(body, Upper(name)), name, value, params, eol)
  {
    var own := ByName(Upper(name));
    match FindInside(body, Upper(name), 0)
    case Some(k) =>
      FoundIsFirst(body, Upper(name), k);
      NamedIsPlain(scope, body[k]);
      if value != "" {
        var l := EditLine(body[k], if params.Some? then params.value else body[k].parts.params, value);
        SelectUpdate(body, own, k, l, |body|);
        var s := LinesOf(body, Upper(name));
        assert s[0 := l] == [l] + s[1..];
      } else if body[k].parts.group == "" {
        LineGoes(body, k, Upper(name));
      } else {
        GroupGoes(body, scope, k, Upper(name));
      }
    case None =>
      NoneBefore(body, Upper(name), |body|);
      if value != "" {
        var l := AddedLine(name, if params.Some? then params.value else "", value, eol);
        SelectAppend(body, l, own);
      }
  }

  lemma FoundIsFirst(body: seq<Line>, name: string, k: nat)
    requires FindInside(body, name, 0) == Some(k)
    ensures Select(body, ByName(name), k) == []
    ensures LinesOf(body, name) != [] && LinesOf(body, name)[0] == body[k]
  {
    NoneBefore(body, name, k);
    SelectUpdate(body, ByName(name), k, body[k], |body|);
  }

  // And of every other name it takes no more than the lines of that group.
  lemma PutOther(body: seq<Line>, scope: Scope, name: string, value: string, params: Option<string>, eol: string, other: string)
    requires Scoped(body, scope) && Upper(name) in scope.names && CanPut(body, scope, name, value) && other != Upper(name)
    ensures LinesOf(SetInside(body, name, value, params, eol), other) ==
            Outside(LinesOf(body, other), GoesAlong(LinesOf(body, Upper(name)), value))
  {
    var choice := ByName(other);
    match FindInside(body, Upper(name), 0)
    case Some(k) =>
      FoundIsFirst(body, Upper(name), k);
      NamedIsPlain(scope, body[k]);
      if value != "" {
        SelectReplace(body, k, EditLine(body[k], if params.Some? then params.value else body[k].parts.params, value),
                      choice, |body|);
      } else if body[k].parts.group == "" {
        LineGoes(body, k, other);
      } else {
        GroupGoes(body, scope, k, other);
      }
    case None =>
      NoneBefore(body, Upper(name), |body|);
      if value != "" {
        SelectAppend(body, AddedLine(name, if params.Some? then params.value else "", value, eol), choice);
      }
  }

  // ------------------------------------------------ names that share no group

  function GroupsOf(lines: seq<Line>): set<string> {
    set i | 0 <= i < |lines| && lines[i].parts.group != "" :: lines[i].parts.group
  }

  // No two of these lines are in one group.
  predicate Singly(lines: seq<Line>) {
    forall i, j | 0 <= i < j < |lines| :: lines[i].parts.group in {""} || lines[i].parts.group != lines[j].parts.group
  }

  // A later state of some lines brings no group with it, and puts no two of
  // them in one.
  predicate Thinner(t: seq<Line>, s: seq<Line>) { GroupsOf(t) <= GroupsOf(s) && (Singly(s) ==> Singly(t)) }

  lemma PutThins(lines: seq<Line>, name: string, value: string, params: Option<string>, eol: string)
    ensures Thinner(PutLine(lines, name, value, params, eol), lines)
  {
    var next := PutLine(lines, name, value, params, eol);
    if lines != [] && value == "" {
      if lines[0].parts.group == "" {
        TailThins(lines);
      } else {
        OutsideThins(lines, lines[0].parts.group);
      }
    } else if lines != [] {
      SameGroupsThin(next, lines);
    }
  }

  lemma SameGroupsThin(t: seq<Line>, s: seq<Line>)
    requires |t| <= |s| && forall i | 0 <= i < |t| :: t[i].parts.group == s[i].parts.group
    ensures Thinner(t, s)
  {
  }

  lemma TailThins(lines: seq<Line>)
    requires lines != []
    ensures Thinner(lines[1..], lines)
  {
    var t := lines[1..];
    assert forall i | 0 <= i < |t| :: t[i] == lines[i + 1];
  }

  lemma OutsideThins(lines: seq<Line>, group: string)
    ensures Thinner(Outside(lines, group), lines)
  {
    if group != "" {
      OutsideGroupThins(lines, group, |lines|);
      assert lines[..|lines|] == lines;
    }
  }

  lemma {:induction false} OutsideGroupThins(lines: seq<Line>, group: string, n: nat)
    requires n <= |lines|
    ensures Thinner(OutsideGroup(lines, group, n), lines[..n])
  {
    if n > 0 {
      OutsideGroupThins(lines, group, n - 1);
      AppendThins(OutsideGroup(lines, group, n - 1), lines[..n - 1], lines[n - 1]);
      TakeNext(lines, n - 1);
    }
  }

  lemma AppendThins(t: seq<Line>, s: seq<Line>, l: Line)
    requires Thinner(t, s)
    ensures Thinner(t, s + [l]) && Thinner(t + [l], s + [l])
  {
    var u, v := s + [l], t + [l];
    assert forall i | 0 <= i < |s| :: u[i] == s[i];
    assert forall i | 0 <= i < |t| :: v[i] == t[i];
    forall g | g in GroupsOf(t) ensures g in GroupsOf(u) {
      var i :| 0 <= i < |s| && s[i].parts.group == g;
      assert u[i].parts.group == g;
    }
    assert u[|s|] == l;
    forall i | 0 <= i < |t| && t[i].parts.group != "" ensures t[i].parts.group in GroupsOf(s) {
      assert t[i].parts.group in GroupsOf(t);
    }
  }

  lemma TakeNext(lines: seq<Line>, n: nat)
    requires n < |lines|
    ensures lines[..n + 1] == lines[..n] + [lines[n]]
  {
  }

  // Taking out a group that is not there.
  lemma {:induction false} AllOutside(lines: seq<Line>, group: string, n: nat)
    requires n <= |lines|
    ensures OutsideGroup(lines, group, n) == lines[..n] <==> GroupAbsent(lines, group, n)
    ensures GroupAbsent(lines, group, n) <==> |OutsideGroup(lines, group, n)| == n
  {
    if n > 0 {
      AllOutside(lines, group, n - 1);
      TakeNext(lines, n - 1);
    }
  }

  lemma OutsideAbsent(lines: seq<Line>, group: string)
    requires group !in GroupsOf(lines)
    ensures Outside(lines, group) == lines
  {
    if group != "" {
      AllOutside(lines, group, |lines|);
      assert lines[..|lines|] == lines;
    }
  }

  // Where no two lines of a name share a group, a removal takes just the first.
  lemma FirstGoes(lines: seq<Line>, name: string, params: Option<string>, eol: string)
    requires Singly(lines)
    ensures PutLine(lines, name, "", params, eol) == if lines == [] then [] else lines[1..]
  {
    if lines != [] && lines[0].parts.group != "" {
      OutsideFirst(lines, |lines|);
      assert lines[1..|lines|] == lines[1..];
    }
  }

  lemma {:induction false} OutsideFirst(lines: seq<Line>, n: nat)
    requires 0 < n <= |lines| && Singly(lines) && lines[0].parts.group != ""
    ensures OutsideGroup(lines, lines[0].parts.group, n) == lines[1..n]
  {
    if n > 1 {
      OutsideFirst(lines, n - 1);
      assert lines[1..n] == lines[1..n - 1] + [lines[n - 1]];
    } else {
      assert OutsideGroup(lines, lines[0].parts.group, 0) == [];
    }
  }

  // No line of this name shares a group with a line of the names, and the
  // names whose lines are removed have their groups in scope.
  predicate Free(body: seq<Line>, names: set<string>, removed: set<string>, groups: set<string>, name: string) {
    forall n | n in names :: FreeOf(body, n, removed, groups, name)
  }

  predicate FreeOf(body: seq<Line>, n: string, removed: set<string>, groups: set<string>, name: string) {
    (n in removed ==> GroupsOf(LinesOf(body, n)) <= groups) &&
    if n == name then Singly(LinesOf(body, n)) else GroupsOf(LinesOf(body, n)) !! GroupsOf(LinesOf(body, name))
  }

  lemma PutStaysFree(body: seq<Line>, scope: Scope, op: Op, eol: string, removed: set<string>, name: string)
    requires Scoped(body, scope) && op.Put? && Upper(op.name) in scope.names && CanPut(body, scope, op.name, op.value)
    requires Free(body, scope.names, removed, scope.groups, name)
    ensures Free(SetInside(body, op.name, op.value, op.newParams, eol), scope.names, removed, scope.groups, name)
  {
    var next := SetInside(body, op.name, op.value, op.newParams, eol);
    PutThinsEach(body, scope, op, eol, name);
    forall n | n in scope.names ensures FreeOf(next, n, removed, scope.groups, name) {
      assert FreeOf(body, n, removed, scope.groups, name);
      PutThinsEach(body, scope, op, eol, n);
    }
  }

  lemma PutThinsEach(body: seq<Line>, scope: Scope, op: Op, eol: string, n: string)
    requires Scoped(body, scope) && op.Put? && Upper(op.name) in scope.names && CanPut(body, scope, op.name, op.value)
    ensures Thinner(LinesOf(SetInside(body, op.name, op.value, op.newParams, eol), n), LinesOf(body, n))
  {
    if n == Upper(op.name) {
      PutOwn(body, scope, op.name, op.value, op.newParams, eol);
      PutThins(LinesOf(body, n), op.name, op.value, op.newParams, eol);
    } else {
      PutOther(body, scope, op.name, op.value, op.newParams, eol, n);
      OutsideThins(LinesOf(body, n), GoesAlong(LinesOf(body, Upper(op.name)), op.value));
    }
  }

  // The group a removal takes along is one of its name's.
  lemma AlongIsTheirs(own: seq<Line>, value: string)
    ensures GoesAlong(own, value) == "" || GoesAlong(own, value) in GroupsOf(own)
  {
  }

  // In an orderly component a removal can go where its name's groups are in
  // scope.
  lemma TiedCanPut(body: seq<Line>, scope: Scope, name: string, value: string)
    requires Orderly(body, scope, |body|)
    requires value == "" ==> GoesAlong(LinesOf(body, Upper(name)), value) in scope.groups + {""}
    ensures CanPut(body, scope, name, value)
  {
    var found := FindInside(body, Upper(name), 0);
    if value == "" && found.Some? {
      FoundIsFirst(body, Upper(name), found.value);
      OrderlyCanGo(body, scope, found.value);
    }
  }

  // The value of a property is that of its first line.
  lemma ValueIsFirst(lines: seq<Line>, span: Span, name: string)
    requires InRange(lines, span)
    ensures var own := LinesOf(Inside(lines, span), name);
            PropertyValue(lines, span, name) == if own == [] then "" else Escaping.Unescape(own[0].parts.value)
  {
    var body := Inside(lines, span);
    FindIsInside(lines, span, name);
    match FindInside(body, name, 0)
    case Some(k) =>
      NoneBefore(body, name, k);
      SelectUpdate(body, ByName(name), k, body[k], |body|);
      assert lines[span.begin + 1 + k] == body[k];
    case None =>
      NoneBefore(body, name, |body|);
  }

  // ------------------------------------------------------------ runs of writes

  predicate AllPuts(ops: seq<Op>, names: set<string>) {
    forall i | 0 <= i < |ops| :: ops[i].Put? && Upper(ops[i].name) in names
  }

  // The names whose lines they may remove.
  predicate Removing(ops: seq<Op>, removed: set<string>)
    requires forall i | 0 <= i < |ops| :: ops[i].Put?
  {
    forall i | 0 <= i < |ops| && ops[i].value == "" :: Upper(ops[i].name) in removed
  }

  // What a run of writes does to the lines of one name: each write addressed
  // to that name acts on them in turn, and the others do not.
  function PutLines(lines: seq<Line>, ops: seq<Op>, name: string, eol: string): seq<Line>
    requires forall i | 0 <= i < |ops| :: ops[i].Put?
    decreases |ops|
  {
    if ops == [] then lines
    else
      var op := ops[0];
      PutLines(if Upper(op.name) == name then PutLine(lines, op.name, op.value, op.newParams, eol) else lines,
               ops[1..], name, eol)
  }

  // An orderly component in a document whose first line has this terminator.
  predicate Prepared(e: Edit, eol: string, scope: Scope) {
    Opened(e, scope) && Ordered(e, scope) && e.span.begin >= 0 && e.lines[0].eol == eol && eol != ""
  }

  // One write to a prepared component.
  lemma PutReads(e: Edit, op: Op, scope: Scope, removed: set<string>, name: string, eol: string)
    requires Prepared(e, eol, scope) && op.Put? && Upper(op.name) in scope.names
    requires op.value == "" ==> Upper(op.name) in removed
    requires Free(Inside(e.lines, e.span), scope.names, removed, scope.groups, name)
    ensures Within(e, op, scope) && Kept(e, Apply(e, op), scope) && Prepared(Apply(e, op), eol, scope)
    ensures var own, next := LinesOf(Inside(e.lines, e.span), name), Inside(Apply(e, op).lines, Apply(e, op).span);
            Free(next, scope.names, removed, scope.groups, name) &&
            LinesOf(next, name) == if Upper(op.name) == name then PutLine(own, op.name, op.value, op.newParams, eol) else own
  {
    var body := Inside(e.lines, e.span);
    var own := LinesOf(body, Upper(op.name));
    assert FreeOf(body, Upper(op.name), removed, scope.groups, name);
    AlongIsTheirs(own, op.value);
    TiedCanPut(body, scope, op.name, op.value);
    ApplyKeeps(e, op, scope);
    PutIsInside(e, op, eol, scope);
    PutStaysFree(body, scope, op, eol, removed, name);
    if Upper(op.name) == name {
      PutOwn(body, scope, op.name, op.value, op.newParams, eol);
    } else {
      PutOther(body, scope, op.name, op.value, op.newParams, eol, name);
      OutsideAbsent(LinesOf(body, name), GoesAlong(own, op.value));
    }
  }

  lemma PutIsInside(e: Edit, op: Op, eol: string, scope: Scope)
    requires Prepared(e, eol, scope) && op.Put? && SameFrame(e, Apply(e, op), scope)
    ensures var f := Apply(e, op);
            f.span.begin == e.span.begin && f.lines[0] == e.lines[0] &&
            Inside(f.lines, f.span) == SetInside(Inside(e.lines, e.span), op.name, op.value, op.newParams, eol)
  {
    var f := Apply(e, op);
    assert f.lines[0] == f.lines[..e.span.begin + 1][0] == e.lines[..e.span.begin + 1][0];
    SetIsInside(e.lines, e.span, op.name, op.value, op.newParams);
    ExchangeFrames(e, SetInside(Inside(e.lines, e.span), op.name, op.value, op.newParams, eol));
  }

  lemma {:induction false} RunReads(e: Edit, ops: seq<Op>, scope: Scope, removed: set<string>, name: string, eol: string)
    requires Prepared(e, eol, scope) && AllPuts(ops, scope.names) && Removing(ops, removed)
    requires Free(Inside(e.lines, e.span), scope.names, removed, scope.groups, name)
    ensures RunWithin(e, ops, scope)
    ensures var f := Run(e, ops, scope);
            Prepared(f, eol, scope) && SameFrame(e, f, scope) &&
            LinesOf(Inside(f.lines, f.span), name) == PutLines(LinesOf(Inside(e.lines, e.span), name), ops, name, eol)
    decreases |ops|
  {
    if ops != [] {
      var op := ops[0];
      assert op.Put? && Upper(op.name) in scope.names;
      PutReads(e, op, scope, removed, name, eol);
      RunReads(Apply(e, op), ops[1..], scope, removed, name, eol);
    }
  }
}
