// What replacing every occurrence of a property comes to.
// internal/vcard/edit.go:57-117
module SetAll {
  import opened Text
  import Lines
  import Escaping
  import opened Documents
  import opened Edits
  import opened Frame
  import opened Properties
  import Params
  import opened Cards

  function Fresh(name: string, want: Property, eol: string): Line {
    AddedLine(name, TypeParams(want.kind), Escaping.Escape(want.value), eol)
  }

  // The lines once the first n values are written: each onto the line it is
  // matched with, or onto a new one.
  function Wanted(lines: seq<Line>, name: string, values: seq<Property>, n: nat, eol: string): (r: seq<Line>)
    requires n <= |values|
    ensures |r| == if n <= |lines| then |lines| else n
    ensures forall i | 0 <= i < |r| :: r[i] == WantedAt(lines, name, values, n, eol, i)
  {
    seq(if n <= |lines| then |lines| else n,
        i requires 0 <= i < (if n <= |lines| then |lines| else n) => WantedAt(lines, name, values, n, eol, i))
  }

  function WantedAt(lines: seq<Line>, name: string, values: seq<Property>, n: nat, eol: string, i: nat): Line
    requires n <= |values| && (i < |lines| || i < n)
  {
    if i < n then
      if i < |lines| then Rewritten(lines[i], values[i]) else Fresh(name, values[i], eol)
    else lines[i]
  }

  lemma WantedRewrites(lines: seq<Line>, name: string, values: seq<Property>, n: nat, eol: string)
    requires n < |values| && n < |lines|
    ensures var w := Wanted(lines, name, values, n, eol);
            w[n] == lines[n] && Wanted(lines, name, values, n + 1, eol) == w[n := Rewritten(lines[n], values[n])]
  {
  }

  lemma WantedGrows(lines: seq<Line>, name: string, values: seq<Property>, n: nat, eol: string)
    requires |lines| <= n < |values|
    ensures Wanted(lines, name, values, n + 1, eol) == Wanted(lines, name, values, n, eol) + [Fresh(name, values[n], eol)]
  {
    var w, next := Wanted(lines, name, values, n, eol), Wanted(lines, name, values, n + 1, eol);
    forall i | 0 <= i < n ensures next[i] == w[i] {
      assert WantedAt(lines, name, values, n + 1, eol, i) == WantedAt(lines, name, values, n, eol, i);
    }
    AppendedLast(w, next, Fresh(name, values[n], eol));
  }

  lemma AppendedLast(s: seq<Line>, t: seq<Line>, l: Line)
    requires |t| == |s| + 1 && t[|s|] == l && forall i | 0 <= i < |s| :: t[i] == s[i]
    ensures t == s + [l]
  {
  }

  // ------------------------------------------------------------- the writes

  function WriteInside(body: seq<Line>, places: seq<nat>, name: string, values: seq<Property>, n: nat, eol: string): (r: seq<Line>)
    requires n <= |values| && AllBelow(places, |body|)
    ensures |r| >= |body|
  {
    if n == 0 then body
    else
      var w := WriteInside(body, places, name, values, n - 1, eol);
      if n - 1 >= |places| then w + [Fresh(name, values[n - 1], eol)]
      else w[places[n - 1] := Rewritten(w[places[n - 1]], values[n - 1])]
  }

  // What stays as it was while lines are rewritten in place.
  predicate SameShape(x: seq<Line>, y: seq<Line>) {
    |x| <= |y| && forall k | 0 <= k < |x| :: x[k].parts.name == y[k].parts.name && x[k].parts.group == y[k].parts.group
  }

  predicate Sound(body: seq<Line>, scope: Scope) { Scoped(body, scope) && Orderly(body, scope, |body|) }

  predicate SameOthers(x: seq<Line>, y: seq<Line>, scope: Scope) {
    Sound(y, scope) && Select(y, Others(scope), |y|) == Select(x, Others(scope), |x|)
  }

  lemma WriteRewrites(body: seq<Line>, w: seq<Line>, scope: Scope, name: string, i: nat, want: Property)
    requires Sound(w, scope) && name in scope.names
    requires |w| == |body| && SameShape(body, w) && i < |Places(body, name, |body|)|
    ensures var k := Places(body, name, |body|)[i];
            var next := w[k := Rewritten(w[k], want)];
            SameShape(body, next) && SameOthers(w, next, scope) &&
            Updated(LinesOf(w, name), LinesOf(next, name), i, w[k], Rewritten(w[k], want))
  {
    var k := Places(body, name, |body|)[i];
    var l := Rewritten(w[k], want);
    PlacesSame(body, w, name, |body|);
    PlacesHold(w, name, |w|, i);
    PlacesSelect(w, name, k);
    SelectUpdate(w, ByName(name), k, l, |w|);
    if l != w[k] {
      ReplaceKeeps(w, scope, k, l.parts.params, l.parts.value);
    } else {
      NothingReplaced(w, k);
    }
  }

  lemma NothingReplaced(w: seq<Line>, k: nat)
    requires k < |w|
    ensures w[k := w[k]] == w
  {
  }

  lemma WriteAppends(w: seq<Line>, scope: Scope, name: string, want: Property, eol: string)
    requires Sound(w, scope) && Upper(name) in scope.names
    ensures var next := w + [Fresh(name, want, eol)];
            SameShape(w, next) && SameOthers(w, next, scope) &&
            LinesOf(next, Upper(name)) == LinesOf(w, Upper(name)) + [Fresh(name, want, eol)]
  {
    var l := Fresh(name, want, eol);
    AppendKeeps(w, scope, l);
    SelectAppend(w, l, ByName(Upper(name)));
  }

  // The first n values have been written.
  predicate Reached(body: seq<Line>, w: seq<Line>, scope: Scope, name: string, values: seq<Property>, n: nat, eol: string)
    requires n <= |values|
  {
    SameShape(body, w) && SameOthers(body, w, scope) && (n <= |LinesOf(body, Upper(name))| ==> |w| == |body|) &&
    LinesOf(w, Upper(name)) == Wanted(LinesOf(body, Upper(name)), name, values, n, eol)
  }

  lemma NothingReached(body: seq<Line>, scope: Scope, name: string, values: seq<Property>, eol: string)
    requires Sound(body, scope)
    ensures Reached(body, body, scope, name, values, 0, eol)
  {
    var own := LinesOf(body, Upper(name));
    assert Wanted(own, name, values, 0, eol) == own;
  }

  lemma NextRewritten(body: seq<Line>, w: seq<Line>, scope: Scope, name: string, values: seq<Property>, n: nat, eol: string)
    requires n < |values| && Reached(body, w, scope, name, values, n, eol) && Upper(name) in scope.names
    requires n < |Places(body, Upper(name), |body|)| == |LinesOf(body, Upper(name))|
    ensures var k := Places(body, Upper(name), |body|)[n];
            Reached(body, w[k := Rewritten(w[k], values[n])], scope, name, values, n + 1, eol)
  {
    WriteRewrites(body, w, scope, Upper(name), n, values[n]);
    WantedRewrites(LinesOf(body, Upper(name)), name, values, n, eol);
  }

  lemma NextAppended(body: seq<Line>, w: seq<Line>, scope: Scope, name: string, values: seq<Property>, n: nat, eol: string)
    requires n < |values| && Reached(body, w, scope, name, values, n, eol) && Upper(name) in scope.names
    requires n >= |LinesOf(body, Upper(name))|
    ensures Reached(body, w + [Fresh(name, values[n], eol)], scope, name, values, n + 1, eol)
  {
    WriteAppends(w, scope, name, values[n], eol);
    WantedGrows(LinesOf(body, Upper(name)), name, values, n, eol);
  }

  lemma {:induction false} WriteKeeps(body: seq<Line>, places: seq<nat>, scope: Scope, name: string, values: seq<Property>, n: nat, eol: string, w: seq<Line>)
    requires Sound(body, scope) && Upper(name) in scope.names && n <= |values|
    requires places == Places(body, Upper(name), |body|) && AllBelow(places, |body|)
    requires w == WriteInside(body, places, name, values, n, eol)
    ensures Reached(body, w, scope, name, values, n, eol)
    decreases n
  {
    if n == 0 {
      NothingReached(body, scope, name, values, eol);
    } else {
      var before := WriteInside(body, places, name, values, n - 1, eol);
      WriteKeeps(body, places, scope, name, values, n - 1, eol, before);
      WriteStep(body, places, scope, name, values, n - 1, eol, before, w);
    }
  }

  lemma WriteStep(body: seq<Line>, places: seq<nat>, scope: Scope, name: string, values: seq<Property>, n: nat, eol: string, before: seq<Line>, w: seq<Line>)
    requires n < |values| && Upper(name) in scope.names
    requires places == Places(body, Upper(name), |body|) && AllBelow(places, |body|)
    requires before == WriteInside(body, places, name, values, n, eol)
    requires w == WriteInside(body, places, name, values, n + 1, eol)
    requires Reached(body, before, scope, name, values, n, eol)
    ensures Reached(body, w, scope, name, values, n + 1, eol)
  {
    CountAll(body, Upper(name));
    if n < |places| {
      WriteOnto(body, places, scope, name, values, n, eol, before, w);
    } else {
      WriteBehind(body, scope, name, values, n, eol, before, w);
    }
  }

  lemma WriteOnto(body: seq<Line>, places: seq<nat>, scope: Scope, name: string, values: seq<Property>, n: nat, eol: string, before: seq<Line>, w: seq<Line>)
    requires n < |values| && Reached(body, before, scope, name, values, n, eol) && Upper(name) in scope.names
    requires places == Places(body, Upper(name), |body|) && n < |places| == |LinesOf(body, Upper(name))|
    requires places[n] < |before| && w == before[places[n] := Rewritten(before[places[n]], values[n])]
    ensures Reached(body, w, scope, name, values, n + 1, eol)
  {
    NextRewritten(body, before, scope, name, values, n, eol);
  }

  lemma WriteBehind(body: seq<Line>, scope: Scope, name: string, values: seq<Property>, n: nat, eol: string, before: seq<Line>, w: seq<Line>)
    requires n < |values| && Reached(body, before, scope, name, values, n, eol) && Upper(name) in scope.names
    requires n >= |LinesOf(body, Upper(name))| && w == before + [Fresh(name, values[n], eol)]
    ensures Reached(body, w, scope, name, values, n + 1, eol)
  {
    NextAppended(body, before, scope, name, values, n, eol);
  }

  // ----------------------------------------------------------- the removals

  function RemoveDownInside(body: seq<Line>, places: seq<nat>, from: nat, to: nat): Option<seq<Line>>
    requires from <= |places|
    decreases from
  {
    if from <= to then Some(body)
    else if places[from - 1] >= |body| then None
    else RemoveDownInside(RemoveInside(body, places[from - 1]), places, from - 1, to)
  }

  predicate SameGroup(a: Line, b: Line) { b.parts.group != "" && a.parts.group == b.parts.group }

  // No line up to m is in the group of line k: when that goes, what stands up
  // to m stays where it is.
  predicate StandsBehind(body: seq<Line>, k: nat, m: nat)
    requires k < |body| && m < |body|
  {
    forall j | 0 <= j <= m :: !SameGroup(body[j], body[k])
  }

  // Each removal, from the last place down, takes a group in scope and hits
  // the line it is meant for: those removed before it have moved nothing up
  // to there.
  predicate Meant(body: seq<Line>, scope: Scope, places: seq<nat>, keep: nat) {
    (forall k | keep <= k < |places| :: places[k] < |body| && body[places[k]].parts.group in scope.groups + {""}) &&
    (forall k | keep < k < |places| :: BehindTheLast(body, places, k))
  }

  predicate BehindTheLast(body: seq<Line>, places: seq<nat>, k: nat) {
    0 < k < |places| && places[k] < |body| && places[k - 1] < |body| && StandsBehind(body, places[k], places[k - 1])
  }

  // Halfway: the removals have left the document alone up to the last place
  // still to be looked at, and the matched lines before it.
  predicate Pending(was: seq<Line>, body: seq<Line>, places: seq<nat>, scope: Scope, name: string, i: nat) {
    Sound(body, scope) && i <= |places| && Places(body, name, |body|) == places[..i] &&
    (i > 0 ==> AgreeTo(was, body, places[i - 1]))
  }

  predicate AgreeTo(was: seq<Line>, body: seq<Line>, k: nat) {
    k < |was| && k < |body| && forall j | 0 <= j <= k :: body[j] == was[j]
  }

  predicate Ascending(s: seq<nat>) { forall i | 0 < i < |s| :: s[i - 1] < s[i] }

  lemma {:induction false} PlacesAscend(body: seq<Line>, name: string, n: nat)
    requires n <= |body|
    ensures Ascending(Places(body, name, n))
  {
    if n > 0 {
      PlacesAscend(body, name, n - 1);
    }
  }

  // The last matched line k goes, and the one before it at m stays where it is.
  lemma LastRemoved(was: seq<Line>, body: seq<Line>, next: seq<Line>, places: seq<nat>, scope: Scope, name: string, i: nat)
    requires Pending(was, body, places, scope, name, i) && i > 1 && name in scope.names && Ascending(places)
    requires places[i - 2] < |was| && StandsBehind(was, places[i - 1], places[i - 2])
    requires was[places[i - 1]].parts.group in scope.groups + {""} && next == RemoveInside(body, places[i - 1])
    ensures Pending(was, next, places, scope, name, i - 1) && CutTo(body, next, scope, name, i - 1)
  {
    var k, m := places[i - 1], places[i - 2];
    LastTwo(places, i);
    PlacesHold(body, name, |body|, i - 1);
    OrderlyCanGo(body, scope, k);
    RemoveKeeps(body, scope, k);
    StillBehind(was, body, k, m);
    RemovedFromHere(body, scope, k, m);
    RemovalReads(body, scope, name, k, m, i);
    StillPending(was, body, next, places, scope, name, i);
  }

  lemma LastTwo(places: seq<nat>, i: nat)
    requires 1 < i <= |places| && Ascending(places)
    ensures places[i - 2] < places[i - 1] && places[..i][i - 1] == places[i - 1] && places[..i][i - 2] == places[i - 2]
  {
  }

  lemma StillBehind(was: seq<Line>, body: seq<Line>, k: nat, m: nat)
    requires AgreeTo(was, body, k) && m < k && StandsBehind(was, k, m)
    ensures StandsBehind(body, k, m)
  {
  }

  lemma RemovedFromHere(body: seq<Line>, scope: Scope, k: nat, m: nat)
    requires Sound(body, scope) && k < |body| && Direct(body, k) && body[k].parts.name in scope.names && CanGo(body, scope, k)
    requires m < k && StandsBehind(body, k, m)
    ensures var drop := Dropped(body, k);
            RemoveInside(body, k) == Drop(body, drop, |body|) && k in drop &&
            (forall j | j in drop :: m < j < |body| && Bracket(body[j]) == 0) &&
            m < |RemoveInside(body, k)| && forall j | 0 <= j <= m :: RemoveInside(body, k)[j] == body[j]
  {
    var drop := Dropped(body, k);
    RemovedIsDrop(body, scope, k);
    assert forall j | j in drop && j <= m :: SameGroup(body[j], body[k]);
    DropPrefix(body, drop, m + 1, |body|);
  }

  lemma {:induction false} DropPrefix(body: seq<Line>, drop: set<nat>, k: nat, n: nat)
    requires k <= |body| && n <= |body| && forall j | j in drop :: k <= j
    ensures var r := Drop(body, drop, n);
            if n <= k then r == body[..n] else k <= |r| && forall j | 0 <= j < k :: r[j] == body[j]
  {
    if n > 0 {
      DropPrefix(body, drop, k, n - 1);
    }
  }

  lemma StillPending(was: seq<Line>, body: seq<Line>, next: seq<Line>, places: seq<nat>, scope: Scope, name: string, i: nat)
    requires Pending(was, body, places, scope, name, i) && i > 1 && Sound(next, scope) && Ascending(places)
    requires Places(next, name, |next|) == Places(body, name, |body|)[..i - 1]
    requires var m := places[i - 2]; m < |next| && forall j | 0 <= j <= m :: next[j] == body[j]
    ensures Pending(was, next, places, scope, name, i - 1)
  {
    TakeTwice(places, i);
    LastTwo(places, i);
  }

  lemma TakeTwice(s: seq<nat>, i: nat)
    requires 0 < i <= |s|
    ensures s[..i][..i - 1] == s[..i - 1]
  {
  }

  // The places are the first i of the name, the last two of them m and k.
  predicate EndsWith(body: seq<Line>, name: string, m: nat, k: nat, i: nat) {
    var p := Places(body, name, |body|);
    1 < i == |p| && p[i - 2] == m && p[i - 1] == k && m < k < |body|
  }

  // Removing the last matched line.
  lemma RemovalReads(body: seq<Line>, scope: Scope, name: string, k: nat, m: nat, i: nat)
    requires Sound(body, scope) && EndsWith(body, name, m, k, i) && StandsBehind(body, k, m) && name in scope.names
    requires Direct(body, k) && body[k].parts.name == name && CanGo(body, scope, k)
    ensures var next := RemoveInside(body, k);
            |LinesOf(body, name)| == i && LinesOf(next, name) == LinesOf(body, name)[..i - 1] &&
            Places(next, name, |next|) == Places(body, name, |body|)[..i - 1]
  {
    OneLineLess(body, scope, name, k, m, i);
    RemovedFromHere(body, scope, k, m);
    SamePlaces(body, RemoveInside(body, k), name, k, m, i);
  }

  lemma OneLineLess(body: seq<Line>, scope: Scope, name: string, k: nat, m: nat, i: nat)
    requires Sound(body, scope) && EndsWith(body, name, m, k, i) && StandsBehind(body, k, m) && name in scope.names
    requires Direct(body, k) && body[k].parts.name == name && CanGo(body, scope, k)
    ensures var next := RemoveInside(body, k);
            |LinesOf(body, name)| == i && LinesOf(next, name) == LinesOf(body, name)[..i - 1]
  {
    RemovedFromHere(body, scope, k, m);
    OnlyOneLeft(body, name, k, m, i);
    SelectDropOne(body, Dropped(body, k), ByName(name), k, |body|);
    CountTo(body, name, k, i);
    WithoutTheLast(LinesOf(body, name));
  }

  lemma CountTo(body: seq<Line>, name: string, k: nat, i: nat)
    requires k < |body| && 0 < i == |Places(body, name, |body|)| && Places(body, name, |body|)[i - 1] == k
    ensures |LinesOf(body, name)| == i && |Select(body, ByName(name), k)| == i - 1
  {
    PlacesHold(body, name, |body|, i - 1);
    PlacesSelect(body, name, |body|);
    PlacesSelect(body, name, k);
  }

  // Behind the last but one place only the last has the name.
  lemma OnlyOneLeft(body: seq<Line>, name: string, k: nat, m: nat, i: nat)
    requires EndsWith(body, name, m, k, i)
    ensures forall j | m < j < |body| :: ByName(name)(Direct(body, j), body[j]) ==> j == k
  {
    PlacesHold(body, name, |body|, i - 1);
    PlacesGrow(body, name, k + 1, |body|);
    PlacesMiss(body, name, k + 1, |body|);
    LastButOne(body, name, m, k, i);
    PlacesMiss(body, name, m + 1, k);
  }

  lemma LastButOne(body: seq<Line>, name: string, m: nat, k: nat, i: nat)
    requires EndsWith(body, name, m, k, i)
    ensures Places(body, name, m + 1) == Places(body, name, |body|)[..i - 1] == Places(body, name, k)
  {
    var p := Places(body, name, |body|);
    PlacesHold(body, name, |body|, i - 1);
    PlacesHold(body, name, |body|, i - 2);
    assert p[..i - 1] == p[..i - 2] + [m];
  }

  lemma SamePlaces(body: seq<Line>, next: seq<Line>, name: string, k: nat, m: nat, i: nat)
    requires EndsWith(body, name, m, k, i)
    requires m < |next| && forall j | 0 <= j <= m :: next[j] == body[j]
    requires |LinesOf(next, name)| == i - 1
    ensures Places(next, name, |next|) == Places(body, name, |body|)[..i - 1]
  {
    LastButOne(body, name, m, k, i);
    PlacesSelect(next, name, |next|);
    PlacesSame(body, next, name, m + 1);
    PlacesGrow(next, name, m + 1, |next|);
  }

  lemma WithoutTheLast(s: seq<Line>)
    requires s != []
    ensures LeftOut(s, |s| - 1) == s[..|s| - 1]
  {
  }

  // The first of the lines that go is the last to go: it takes its group along,
  // wherever that stands.
  lemma FirstRemoved(body: seq<Line>, scope: Scope, name: string, k: nat, to: nat)
    requires Sound(body, scope) && name in scope.names && |Places(body, name, |body|)| == to + 1
    requires Places(body, name, |body|)[to] == k && k < |body| && body[k].parts.group in scope.groups + {""}
    ensures SameOthers(body, RemoveInside(body, k), scope)
    ensures |LinesOf(body, name)| == to + 1
    ensures LinesOf(RemoveInside(body, k), name) == Outside(LinesOf(body, name)[..to], LinesOf(body, name)[to].parts.group)
  {
    var own := LinesOf(body, name);
    PlacesHold(body, name, |body|, to);
    PlacesSelect(body, name, |body|);
    OrderlyCanGo(body, scope, k);
    RemoveKeeps(body, scope, k);
    NamedIsPlain(scope, body[k]);
    if own[to].parts.group == "" {
      DropsJustOne(body, k);
      SelectDropOne(body, {k}, ByName(name), k, |body|);
      CountTo(body, name, k, to + 1);
      WithoutTheLast(own);
    } else {
      GroupGoes(body, scope, k, name);
      OutsideFront(own, own[to].parts.group, to);
    }
  }

  lemma OutsideFront(own: seq<Line>, group: string, to: nat)
    requires |own| == to + 1 && own[to].parts.group == group != ""
    ensures Outside(own, group) == Outside(own[..to], group)
  {
    OutsideGroupPrefix(own, own[..to], group, to);
  }

  // ------------------------------------------------------------ the two halves

  // Only the first so many lines of the name are left.
  predicate CutTo(body: seq<Line>, r: seq<Line>, scope: Scope, name: string, to: nat) {
    SameOthers(body, r, scope) && to <= |LinesOf(body, name)| && LinesOf(r, name) == LinesOf(body, name)[..to]
  }

  // What is left of some lines when those from n on have gone.
  function Left(lines: seq<Line>, n: nat): seq<Line> {
    if n < |lines| then Outside(lines[..n], lines[n].parts.group) else lines
  }

  lemma {:induction false} RemovesDown(was: seq<Line>, first: seq<Line>, body: seq<Line>, places: seq<nat>, scope: Scope, name: string, i: nat, to: nat, r: Option<seq<Line>>)
    requires Removed(was, first, body, places, scope, name, i, to)
    requires r == RemoveDownInside(body, places, i, to)
    ensures r.Some? && SameOthers(first, r.value, scope) && LinesOf(r.value, name) == Left(LinesOf(first, name), to)
    decreases i
  {
    if i > to + 1 {
      var next := OneRemoved(was, first, body, places, scope, name, i, to, r);
      RemovesDown(was, first, next, places, scope, name, i - 1, to, r);
    } else {
      LastOfAll(was, first, body, places, scope, name, to, r);
    }
  }

  // From the first state on, all but i of the matched lines have gone.
  predicate Removed(was: seq<Line>, first: seq<Line>, body: seq<Line>, places: seq<nat>, scope: Scope, name: string, i: nat, to: nat) {
    Pending(was, body, places, scope, name, i) && name in scope.names && Ascending(places) && to < i &&
    Meant(was, scope, places, to) && CutTo(first, body, scope, name, i)
  }

  lemma OneRemoved(was: seq<Line>, first: seq<Line>, body: seq<Line>, places: seq<nat>, scope: Scope, name: string, i: nat, to: nat, r: Option<seq<Line>>)
    returns (next: seq<Line>)
    requires Removed(was, first, body, places, scope, name, i, to) && to + 1 < i
    requires r == RemoveDownInside(body, places, i, to)
    ensures Removed(was, first, next, places, scope, name, i - 1, to)
    ensures r == RemoveDownInside(next, places, i - 1, to)
  {
    next := RemoveInside(body, places[i - 1]);
    assert BehindTheLast(was, places, i - 1);
    LastRemoved(was, body, next, places, scope, name, i);
    CutFurther(first, body, next, scope, name, i, i - 1);
  }

  lemma LastOfAll(was: seq<Line>, first: seq<Line>, body: seq<Line>, places: seq<nat>, scope: Scope, name: string, to: nat, r: Option<seq<Line>>)
    requires Removed(was, first, body, places, scope, name, to + 1, to)
    requires r == RemoveDownInside(body, places, to + 1, to)
    ensures r.Some? && SameOthers(first, r.value, scope) && LinesOf(r.value, name) == Left(LinesOf(first, name), to)
  {
    var k := places[to];
    assert places[..to + 1][to] == k;
    FirstRemoved(body, scope, name, k, to);
    TakeLess(LinesOf(first, name), to + 1, to);
    assert RemoveDownInside(RemoveInside(body, k), places, to, to) == Some(RemoveInside(body, k));
  }

  lemma NothingCut(body: seq<Line>, scope: Scope, name: string)
    requires Sound(body, scope)
    ensures CutTo(body, body, scope, name, |Places(body, name, |body|)|)
  {
    CountAll(body, name);
    NoneTaken(LinesOf(body, name));
  }

  lemma CutFurther(body: seq<Line>, next: seq<Line>, r: seq<Line>, scope: Scope, name: string, i: nat, to: nat)
    requires CutTo(body, next, scope, name, i) && CutTo(next, r, scope, name, to) && to <= i
    ensures CutTo(body, r, scope, name, to)
  {
    TakeLess(LinesOf(body, name), i, to);
  }

  lemma CountAll(body: seq<Line>, name: string)
    ensures |LinesOf(body, name)| == |Places(body, name, |body|)|
  {
    PlacesSelect(body, name, |body|);
  }

  lemma NoneTaken(s: seq<Line>)
    ensures s[..|s|] == s
  {
  }

  lemma TakeLess(s: seq<Line>, i: nat, to: nat)
    requires to <= i <= |s|
    ensures s[..i][..to] == s[..to]
  {
  }

  function SetAllInside(body: seq<Line>, name: string, values: seq<Property>, eol: string): Option<seq<Line>> {
    var places := Places(body, Upper(name), |body|);
    RemoveDownInside(WriteInside(body, places, name, values, |values|, eol), places, |places|, |values|)
  }

  // The removals hit the lines they are meant for.
  predicate Hits(body: seq<Line>, scope: Scope, name: string, keep: nat) {
    Meant(body, scope, Places(body, name, |body|), keep)
  }

  // The lines of a name are the values given, in order, each in the line that
  // held the value before it where there is one, but for those in the group of
  // the first line that went; and the rest of the card is as it was.
  lemma SetAllInsideReads(body: seq<Line>, scope: Scope, name: string, values: seq<Property>, eol: string)
    requires Sound(body, scope) && Upper(name) in scope.names && Hits(body, scope, Upper(name), |values|)
    ensures var r := SetAllInside(body, name, values, eol);
            r.Some? && SameOthers(body, r.value, scope) &&
            LinesOf(r.value, Upper(name)) == Left(Wanted(LinesOf(body, Upper(name)), name, values, |values|, eol), |values|)
  {
    var places := Places(body, Upper(name), |body|);
    var w := WriteInside(body, places, name, values, |values|, eol);
    WriteKeeps(body, places, scope, name, values, |values|, eol, w);
    CountAll(body, Upper(name));
    if |places| > |values| {
      StillPlaced(body, w, places, scope, Upper(name), |values|);
      NothingCut(w, scope, Upper(name));
      RemovesDown(w, w, w, places, scope, Upper(name), |places|, |values|, SetAllInside(body, name, values, eol));
    }
  }

  // Rewriting lines in place moves none and puts none in another group.
  lemma StillPlaced(body: seq<Line>, w: seq<Line>, places: seq<nat>, scope: Scope, name: string, keep: nat)
    requires places == Places(body, name, |body|) && |w| == |body| && SameShape(body, w) && Sound(w, scope)
    ensures Pending(w, w, places, scope, name, |places|) && Ascending(places)
    ensures Meant(body, scope, places, keep) ==> Meant(w, scope, places, keep)
  {
    PlacesSame(body, w, name, |body|);
    PlacesAscend(body, name, |body|);
    AllTaken(places);
    if Meant(body, scope, places, keep) {
      StillMeant(body, w, scope, places, keep);
    }
  }

  lemma StillMeant(body: seq<Line>, w: seq<Line>, scope: Scope, places: seq<nat>, keep: nat)
    requires Meant(body, scope, places, keep) && |w| == |body| && SameShape(body, w)
    ensures Meant(w, scope, places, keep)
  {
    forall k | keep < k < |places| ensures BehindTheLast(w, places, k) {
      assert BehindTheLast(body, places, k);
    }
  }

  lemma AllTaken(s: seq<nat>)
    ensures s[..|s|] == s
  {
  }

  // Where the heads of a scope's groups include the name, removals of it hit
  // the lines they are meant for.
  lemma HeadsAreHit(body: seq<Line>, scope: Scope, name: string, keep: nat)
    requires Orderly(body, scope, |body|) && name in scope.heads
    requires forall k | keep <= k < |LinesOf(body, name)| :: LinesOf(body, name)[k].parts.group in scope.groups + {""}
    ensures Hits(body, scope, name, keep)
  {
    var places := Places(body, name, |body|);
    PlacesSelect(body, name, |body|);
    PlacesAscend(body, name, |body|);
    forall k | keep <= k < |places| ensures body[places[k]].parts.group in scope.groups + {""} {
      assert LinesOf(body, name)[k] == body[places[k]];
    }
    forall k | keep < k < |places| ensures BehindTheLast(body, places, k) {
      PlacesHold(body, name, |body|, k - 1);
      PlacesHold(body, name, |body|, k);
      assert body[places[k]].parts.group in scope.groups + {""};
      HeadStandsBehind(body, scope, name, places[k], places[k - 1]);
    }
  }

  lemma HeadStandsBehind(body: seq<Line>, scope: Scope, name: string, k: nat, m: nat)
    requires Orderly(body, scope, |body|) && name in scope.heads && m < k < |body|
    requires body[k].parts.name == name == body[m].parts.name && body[k].parts.group in scope.groups + {""}
    ensures StandsBehind(body, k, m)
  {
    assert Fits(body, k, body[k], scope);
    forall j | 0 <= j <= m ensures !SameGroup(body[j], body[k]) {
      assert body[j].parts.group == body[k].parts.group && body[k].parts.group != "" ==>
        !Clear(body, body[k].parts.group, name, k);
    }
  }

  // The groups of what is left are among those there were.
  lemma SetAllThins(own: seq<Line>, name: string, values: seq<Property>, eol: string)
    ensures Thinner(Left(Wanted(own, name, values, |values|, eol), |values|), own)
  {
    var w := Wanted(own, name, values, |values|, eol);
    WantedThins(own, w, |own|);
    if |values| < |w| {
      SameGroupsThin(w[..|values|], own);
      OutsideThins(w[..|values|], w[|values|].parts.group);
    }
  }

  lemma WantedThins(own: seq<Line>, w: seq<Line>, n: nat)
    requires n == |own| <= |w| && forall i | 0 <= i < n :: w[i].parts.group == own[i].parts.group
    requires forall i | n <= i < |w| :: w[i].parts.group == ""
    ensures Thinner(w, own)
  {
  }

  // --------------------------------------------------- around the component

  lemma ExchangeTwice(e: Edit, b: seq<Line>, c: seq<Line>)
    requires InRange(e.lines, e.span)
    ensures var f := Exchange(e.lines, e.span, b);
            InRange(f.lines, f.span) && Exchange(f.lines, f.span, c) == Exchange(e.lines, e.span, c)
  {
    ExchangeFrames(e, b);
  }

  predicate Begins(e: Edit, eol: string) {
    InRange(e.lines, e.span) && e.span.begin >= 0 && e.lines[0].eol == eol && eol != ""
  }

  lemma StillBegins(e: Edit, eol: string, body: seq<Line>)
    requires Begins(e, eol)
    ensures var f := Exchange(e.lines, e.span, body);
            Begins(f, eol) && FirstEol(f.lines) == eol && Inside(f.lines, f.span) == body && f.span.begin == e.span.begin
  {
    ExchangeFrames(e, body);
    var f := Exchange(e.lines, e.span, body);
    assert f.lines[0] == f.lines[..e.span.begin + 1][0] == e.lines[0];
  }

  lemma AppendIsInside(e: Edit, eol: string, w: seq<Line>, name: string, want: Property, f: Edit)
    requires Begins(e, eol) && f == Exchange(e.lines, e.span, w)
    ensures InsertLine(f.lines, f.span, NewLine(name, TypeParams(want.kind), Escaping.Escape(want.value))) ==
            Exchange(e.lines, e.span, w + [Fresh(name, want, eol)])
  {
    StillBegins(e, eol, w);
    InsertIsInside(f.lines, f.span, NewLine(name, TypeParams(want.kind), Escaping.Escape(want.value)));
    ExchangeTwice(e, w, w + [Fresh(name, want, eol)]);
  }

  lemma RewriteIsInside(e: Edit, eol: string, w: seq<Line>, k: nat, want: Property, f: Edit)
    requires Begins(e, eol) && f == Exchange(e.lines, e.span, w) && k < |w|
    ensures var i := e.span.begin + 1 + k;
            i < |f.lines| && Edit(f.lines[i := Rewritten(f.lines[i], want)], f.span) ==
                             Exchange(e.lines, e.span, w[k := Rewritten(w[k], want)])
  {
    ReplaceExchanged(e, w, k, Rewritten(w[k], want), f);
  }

  lemma ReplaceExchanged(e: Edit, w: seq<Line>, k: nat, l: Line, f: Edit)
    requires InRange(e.lines, e.span) && f == Exchange(e.lines, e.span, w) && k < |w|
    ensures var i := e.span.begin + 1 + k;
            i < |f.lines| && f.lines[i] == w[k] && Edit(f.lines[i := l], f.span) == Exchange(e.lines, e.span, w[k := l])
  {
    ExchangeFrames(e, w);
    ReplaceIsInside(f.lines, f.span, k, l);
    ExchangeTwice(e, w, w[k := l]);
  }

  lemma {:induction false} WritesAreInside(e: Edit, eol: string, places: seq<nat>, name: string, values: seq<Property>, n: nat, w: seq<Line>, f: Edit)
    requires Begins(e, eol) && AllBelow(places, |Inside(e.lines, e.span)|) && n <= |values|
    requires AllBelow(Shifted(places, e.span.begin + 1), |e.lines|)
    requires w == WriteInside(Inside(e.lines, e.span), places, name, values, n, eol)
    requires f == Written(e, name, Shifted(places, e.span.begin + 1), values, n)
    ensures f == Exchange(e.lines, e.span, w)
    decreases n
  {
    if n == 0 {
      Unchanged(e.lines, e.span);
    } else {
      var w0 := WriteInside(Inside(e.lines, e.span), places, name, values, n - 1, eol);
      var f0 := Written(e, name, Shifted(places, e.span.begin + 1), values, n - 1);
      WritesAreInside(e, eol, places, name, values, n - 1, w0, f0);
      if n - 1 >= |places| {
        AppendIsInside(e, eol, w0, name, values[n - 1], f0);
      } else {
        RewriteIsInside(e, eol, w0, places[n - 1], values[n - 1], f0);
      }
    }
  }

  lemma RemovalIsInside(e: Edit, eol: string, body: seq<Line>, k: nat, f: Edit)
    requires Begins(e, eol) && f == Exchange(e.lines, e.span, body) && k < |body|
    ensures f.span.begin == e.span.begin && e.span.begin + 1 + k < |f.lines|
    ensures RemoveLine(f.lines, f.span, e.span.begin + 1 + k) == Exchange(e.lines, e.span, RemoveInside(body, k))
  {
    StillBegins(e, eol, body);
    RemoveIsInside(f.lines, f.span, k);
    ExchangeTwice(e, body, RemoveInside(body, k));
  }

  lemma RemovalAtIsInside(e: Edit, eol: string, body: seq<Line>, places: seq<nat>, existing: seq<nat>, i: nat, f: Edit)
    requires Begins(e, eol) && f == Exchange(e.lines, e.span, body) && i < |places| && places[i] < |body|
    requires existing == Shifted(places, e.span.begin + 1)
    ensures f.span.begin == e.span.begin && existing[i] < |f.lines|
    ensures RemoveLine(f.lines, f.span, existing[i]) == Exchange(e.lines, e.span, RemoveInside(body, places[i]))
  {
    RemovalIsInside(e, eol, body, places[i], f);
  }

  lemma {:induction false} RemovalsAreInside(e: Edit, eol: string, body: seq<Line>, places: seq<nat>, existing: seq<nat>, i: nat, to: nat, f: Edit, r: Option<seq<Line>>)
    requires Begins(e, eol) && f == Exchange(e.lines, e.span, body) && i <= |places|
    requires existing == Shifted(places, e.span.begin + 1)
    requires r == RemoveDownInside(body, places, i, to) && r.Some?
    ensures f.span.begin == e.span.begin
    ensures RemovedDown(f, existing, i, to) == Some(Exchange(e.lines, e.span, r.value))
    decreases i
  {
    if i > to {
      var next := RemoveInside(body, places[i - 1]);
      RemovalStep(e, eol, body, places, existing, i - 1, to, f, r, Exchange(e.lines, e.span, next));
      RemovalsAreInside(e, eol, next, places, existing, i - 1, to, Exchange(e.lines, e.span, next), r);
    }
  }

  lemma RemovalStep(e: Edit, eol: string, body: seq<Line>, places: seq<nat>, existing: seq<nat>, i: nat, to: nat, f: Edit, r: Option<seq<Line>>, g: Edit)
    requires Begins(e, eol) && f == Exchange(e.lines, e.span, body) && to <= i < |places|
    requires existing == Shifted(places, e.span.begin + 1)
    requires r == RemoveDownInside(body, places, i + 1, to) && r.Some?
    requires places[i] < |body| ==> g == Exchange(e.lines, e.span, RemoveInside(body, places[i]))
    ensures places[i] < |body| && r == RemoveDownInside(RemoveInside(body, places[i]), places, i, to)
    ensures f.span.begin == e.span.begin == g.span.begin
    ensures RemovedDown(f, existing, i + 1, to) == RemovedDown(g, existing, i, to)
  {
    RemovalAtIsInside(e, eol, body, places, existing, i, f);
  }

  lemma SetAllIsInside(e: Edit, eol: string, name: string, values: seq<Property>, r: Option<seq<Line>>)
    requires Begins(e, eol)
    requires r == SetAllInside(Inside(e.lines, e.span), name, values, eol) && r.Some?
    ensures AllSet(e, name, values) == Some(Exchange(e.lines, e.span, r.value))
  {
    var places := FoundInside(e, name);
    SetAllFrom(e, eol, places, name, values, WriteInside(Inside(e.lines, e.span), places, name, values, |values|, eol), r);
  }

  lemma SetAllFrom(e: Edit, eol: string, places: seq<nat>, name: string, values: seq<Property>, w: seq<Line>, r: Option<seq<Line>>)
    requires Begins(e, eol) && AllBelow(places, |Inside(e.lines, e.span)|)
    requires w == WriteInside(Inside(e.lines, e.span), places, name, values, |values|, eol)
    requires r == RemoveDownInside(w, places, |places|, |values|) && r.Some?
    requires var existing := Occurrences(e.lines, e.span, Upper(name), e.span.begin + 1);
             existing == Shifted(places, e.span.begin + 1) && AllBelow(existing, |e.lines|)
    ensures AllSet(e, name, values) == Some(Exchange(e.lines, e.span, r.value))
  {
    var existing, a := AllSetIsOver(e, name, values);
    BothHalvesInside(e, eol, places, existing, name, values, w, r, a);
  }

  lemma AllSetIsOver(e: Edit, name: string, values: seq<Property>) returns (existing: seq<nat>, a: Option<Edit>)
    requires e.span.begin >= -1
    ensures existing == Occurrences(e.lines, e.span, Upper(name), e.span.begin + 1) && AllBelow(existing, |e.lines|)
    ensures a == AllSet(e, name, values) && a == SetOver(e, name, existing, values)
  {
    OccurrencesInRange(e.lines, e.span, Upper(name), e.span.begin + 1);
    existing, a := Occurrences(e.lines, e.span, Upper(name), e.span.begin + 1), AllSet(e, name, values);
  }

  lemma FoundInside(e: Edit, name: string) returns (places: seq<nat>)
    requires InRange(e.lines, e.span)
    ensures var body := Inside(e.lines, e.span); places == Places(body, Upper(name), |body|) && AllBelow(places, |body|)
    ensures var existing := Occurrences(e.lines, e.span, Upper(name), e.span.begin + 1);
            existing == Shifted(places, e.span.begin + 1) && AllBelow(existing, |e.lines|)
  {
    var body := Inside(e.lines, e.span);
    places := Places(body, Upper(name), |body|);
    PlacesAreOccurrences(e.lines, e.span, Upper(name));
    OccurrencesInRange(e.lines, e.span, Upper(name), e.span.begin + 1);
  }

  lemma BothHalvesInside(e: Edit, eol: string, places: seq<nat>, existing: seq<nat>, name: string, values: seq<Property>, w: seq<Line>, r: Option<seq<Line>>, a: Option<Edit>)
    requires Begins(e, eol) && AllBelow(places, |Inside(e.lines, e.span)|)
    requires existing == Shifted(places, e.span.begin + 1) && AllBelow(existing, |e.lines|)
    requires w == WriteInside(Inside(e.lines, e.span), places, name, values, |values|, eol)
    requires r == RemoveDownInside(w, places, |places|, |values|) && r.Some?
    requires a == SetOver(e, name, existing, values)
    ensures a == Some(Exchange(e.lines, e.span, r.value))
  {
    var f := Written(e, name, existing, values, |values|);
    WritesAreInside(e, eol, places, name, values, |values|, w, f);
    RemovalsAreInside(e, eol, w, places, existing, |places|, |values|, f, r);
  }

  // -------------------------------------------------------------- the promise

  // A line that has the type, if it does, is shown with it: the condition on
  // the card as it was under which the form gets back the type it asked for.
  predicate Shows(l: Line, kind: string) {
    HasType(l.parts.params, kind) ==> ShownType(l.parts.params) == Lower(kind)
  }

  // The editor leaves this line alone.
  predicate Untouched(l: Line, want: Property) {
    Escaping.Unescape(l.parts.value) == want.value && HasType(l.parts.params, want.kind)
  }

  // What the form reads of one property it wrote, over the line there was.
  predicate ReadsAs(was: Option<Line>, got: Property, want: Property) {
    (got.value == want.value <==> '\r' !in want.value || (was.Some? && Untouched(was.value, want))) &&
    (Params.Clean(want.kind) ==> (got.kind == Lower(want.kind) <==> (was.Some? ==> Shows(was.value, want.kind))))
  }

  function At(lines: seq<Line>, i: nat): Option<Line> { if i < |lines| then Some(lines[i]) else None }

  // What it reads of a list it wrote.
  predicate ReadsBack(was: seq<Line>, got: seq<Property>, values: seq<Property>) {
    |got| == |values| && forall i | 0 <= i < |values| :: ReadsAs(At(was, i), got[i], values[i])
  }

  function ShownOf(l: Line): Property { Property(Escaping.Unescape(l.parts.value), ShownType(l.parts.params)) }

  lemma RewrittenReads(l: Line, want: Property)
    ensures ReadsAs(Some(l), ShownOf(Rewritten(l, want)), want)
    ensures Params.Clean(want.kind) ==> HasType(Rewritten(l, want).parts.params, want.kind)
    ensures KeepsWhatIsSame(l, Rewritten(l, want), want)
  {
    Escaping.UnescapeEscape(want.value);
    TypeReads(want.kind);
    if Params.Clean(want.kind) {
      KindShown(l, want);
    }
  }

  lemma FreshReads(name: string, want: Property, eol: string)
    ensures ReadsAs(None, ShownOf(Fresh(name, want, eol)), want)
    ensures Params.Clean(want.kind) ==> HasType(Fresh(name, want, eol).parts.params, want.kind)
  {
    Escaping.UnescapeEscape(want.value);
    TypeReads(want.kind);
    if want.kind == "" {
      NoTypeShown();
    } else if Params.Clean(want.kind) {
      TypeIsShown(want.kind);
    }
  }

  // After SetAll the property's lines are as many as the values, and each
  // reads as its value and its type do; a value that was there already keeps
  // its line, and a type that was there already its parameters.
  predicate SetAllHolds(was: seq<Line>, now: seq<Line>, values: seq<Property>) {
    |now| == |values| && ReadsBack(was, Shown(now), values) &&
    (forall i | 0 <= i < |values| && Params.Clean(values[i].kind) :: HasType(now[i].parts.params, values[i].kind)) &&
    (forall i | 0 <= i < |values| && i < |was| :: KeepsWhatIsSame(was[i], now[i], values[i]))
  }

  predicate KeepsWhatIsSame(l: Line, next: Line, want: Property) {
    HasType(l.parts.params, want.kind) ==>
      next.parts.params == l.parts.params && (Escaping.Unescape(l.parts.value) == want.value ==> next == l)
  }

  lemma WantedHolds(was: seq<Line>, name: string, values: seq<Property>, eol: string)
    ensures SetAllHolds(was, Wanted(was, name, values, |values|, eol)[..|values|], values)
  {
    var now := Wanted(was, name, values, |values|, eol)[..|values|];
    forall i | 0 <= i < |values|
      ensures ReadsAs(At(was, i), Shown(now)[i], values[i])
      ensures Params.Clean(values[i].kind) ==> HasType(now[i].parts.params, values[i].kind)
      ensures i < |was| ==> KeepsWhatIsSame(was[i], now[i], values[i])
    {
      assert Shown(now)[i] == ShownOf(now[i]);
      if i < |was| {
        RewrittenReads(was[i], values[i]);
      } else {
        FreshReads(name, values[i], eol);
      }
    }
  }

  // What a form can ask for and get back letter by letter.
  predicate Askable(want: Property) { '\r' !in want.value && Params.Clean(want.kind) && Lower(want.kind) == want.kind }

  // The form then reads exactly what it wrote if and only if each line that
  // already had the type it was given showed that type.
  lemma ReadsBackExact(was: seq<Line>, got: seq<Property>, values: seq<Property>)
    requires ReadsBack(was, got, values) && forall i | 0 <= i < |values| :: Askable(values[i])
    ensures got == values <==> forall i | 0 <= i < |values| && i < |was| :: Shows(was[i], values[i].kind)
  {
    forall i | 0 <= i < |values| ensures got[i] == values[i] <==> (i < |was| ==> Shows(was[i], values[i].kind)) {
      assert ReadsAs(At(was, i), got[i], values[i]);
      assert Askable(values[i]);
    }
    if forall i | 0 <= i < |values| && i < |was| :: Shows(was[i], values[i].kind) {
      SameEach(got, values);
    }
  }

  lemma SameEach(a: seq<Property>, b: seq<Property>)
    requires |a| == |b| && forall i | 0 <= i < |a| :: a[i] == b[i]
    ensures a == b
  {
  }

  // The first line that goes shares its group with none that is kept.
  predicate GoesAlone(own: seq<Line>, n: nat) {
    n < |own| && own[n].parts.group != "" ==> GroupAbsent(own, own[n].parts.group, n)
  }

  // Where the removals hit the lines they are meant for, what is left is what
  // was asked for if and only if the first of them takes none of it along.
  lemma DropExact(own: seq<Line>, name: string, values: seq<Property>, eol: string)
    ensures var w := Wanted(own, name, values, |values|, eol);
            (Left(w, |values|) == w[..|values|] <==> GoesAlone(own, |values|)) &&
            (|Left(w, |values|)| == |values| <==> GoesAlone(own, |values|))
  {
    var n, w := |values|, Wanted(own, name, values, |values|, eol);
    if n < |w| {
      forall i | 0 <= i <= n ensures w[i].parts.group == own[i].parts.group {
        assert w[i] == WantedAt(own, name, values, n, eol, i);
      }
      LeftExact(w, own, n);
    } else {
      NoneTaken(w);
    }
  }

  lemma LeftExact(w: seq<Line>, own: seq<Line>, n: nat)
    requires n < |w| == |own| && forall i | 0 <= i <= n :: w[i].parts.group == own[i].parts.group
    ensures Left(w, n) == w[..n] <==> GoesAlone(own, n)
    ensures |Left(w, n)| == n <==> GoesAlone(own, n)
  {
    AllOutside(w[..n], own[n].parts.group, n);
    NoneTaken(w[..n]);
  }

  // SetAll and then Values. Everything out of scope keeps its bytes, its order
  // and its place; and the property reads as it was set if and only if the
  // first line that goes shares its group with none that is kept.
  lemma SetAllThenValues(e: Edit, eol: string, scope: Scope, name: string, values: seq<Property>)
    requires Begins(e, eol) && Opened(e, scope) && Ordered(e, scope) && Upper(name) in scope.names
    requires Hits(Inside(e.lines, e.span), scope, Upper(name), |values|)
    ensures var r := AllSet(e, name, values);
            r.Some? && Opened(r.value, scope) && Ordered(r.value, scope) && SameFrame(e, r.value, scope)
    ensures var f, own := AllSet(e, name, values).value, LinesOf(Inside(e.lines, e.span), Upper(name));
            var now := LinesOf(Inside(f.lines, f.span), Upper(name));
            now == Left(Wanted(own, name, values, |values|, eol), |values|) &&
            (SetAllHolds(own, now, values) <==> GoesAlone(own, |values|))
  {
    var body := Inside(e.lines, e.span);
    var r := SetAllInside(body, name, values, eol);
    SetAllInsideReads(body, scope, name, values, eol);
    SetAllIsInside(e, eol, name, values, r);
    WantedHolds(LinesOf(body, Upper(name)), name, values, eol);
    DropExact(LinesOf(body, Upper(name)), name, values, eol);
    FrameOfExchange(e, scope, r.value, Exchange(e.lines, e.span, r.value));
  }

  lemma FrameOfExchange(e: Edit, scope: Scope, next: seq<Line>, f: Edit)
    requires Opened(e, scope) && SameOthers(Inside(e.lines, e.span), next, scope)
    requires f == Exchange(e.lines, e.span, next)
    ensures Opened(f, scope) && Ordered(f, scope) && SameFrame(e, f, scope) && Inside(f.lines, f.span) == next
  {
    ExchangeFrames(e, next);
  }

  // --------------------------------------------- when a removal takes too much

  lemma FlatThroughout(body: seq<Line>)
    requires Flat(body)
    ensures forall j | 0 <= j < |body| :: Direct(body, j)
  {
    forall j | 0 <= j < |body| ensures Direct(body, j) {
      FlatDepth(body, 0, j);
    }
  }

  function Phone(value: string): Line {
    Line("item1.TEL:" + value, "\r\n", Lines.Parts("item1", "TEL", "", value), false, false)
  }

  lemma ThreePlaces(body: seq<Line>)
    requires Flat(body) && |body| == 3 && forall k | 0 <= k < 3 :: body[k].parts.name == "TEL"
    ensures Places(body, "TEL", 3) == [0, 1, 2]
  {
    FlatThroughout(body);
    assert Places(body, "TEL", 1) == [0];
    assert Places(body, "TEL", 2) == [0, 1];
  }

  // Three numbers in one group: asked to keep the first, the editor removes
  // all three, and then tries to remove a line behind them.
  lemma GroupedTwiceIsLost(begin: Line, end: Line)
    requires Bracket(begin) == 1 && Bracket(end) == -1 && begin.parts.group == "" == end.parts.group
    ensures var e := Edit([begin, Phone("1"), Phone("2"), Phone("3"), end], Span(0, 4));
            AllSet(e, "TEL", [Property("1", "")]).None?
  {
    var one, two, three := Phone("1"), Phone("2"), Phone("3");
    var lines := [begin, one, two, three, end];
    var e := Edit(lines, Span(0, 4));
    var body := [one, two, three];
    assert Inside(lines, e.span) == body;
    assert Upper("TEL") == "TEL";
    PlacesAreOccurrences(lines, e.span, "TEL");
    ThreePlaces(body);
    var existing := Shifted([0, 1, 2], 1);
    assert existing == [1, 2, 3];
    var values := [Property("1", "")];
    assert Rewritten(one, values[0]) == one;
    NothingReplaced(lines, 1);
    assert Written(e, "TEL", existing, values, 1) == Edit(lines[1 := one], e.span) == e;
    WholeGroupGoes(lines, body, begin, end);
    assert RemoveLine(lines, e.span, 3).lines == [begin, end];
  }

  lemma WholeGroupGoes(lines: seq<Line>, body: seq<Line>, begin: Line, end: Line)
    requires Flat(body) && body != [] && forall k | 0 <= k < |body| :: body[k].parts.group in {"item1"}
    requires lines == [begin] + body + [end]
    ensures Compacted(lines, Span(0, |body| + 1), "item1", |lines|) == [begin, end]
  {
    GroupIsAll(body, "item1");
    CompactedIsInside(lines, Span(0, |body| + 1), "item1");
    InsideOf(begin, body, end);
  }

  lemma InsideOf(begin: Line, body: seq<Line>, end: Line)
    ensures var lines := [begin] + body + [end];
            lines[1..|body| + 1] == body && lines[..1] + [] + lines[|body| + 1..] == [begin, end]
  {
  }

  lemma GroupIsAll(body: seq<Line>, group: string)
    requires Flat(body) && forall k | 0 <= k < |body| :: body[k].parts.group in {group}
    ensures CompactedInside(body, group, |body|) == []
  {
    EarlyHasNoEcho(body, group, |body|);
    RemoveGroupExact(body, group, |body|);
    CompactedIsDrop(body, group, |body|);
    GroupLinesBelow(body, group, |body|);
    FlatThroughout(body);
    AllDropped(body, GroupLines(body, group, |body|), |body|);
  }

  lemma {:induction false} AllDropped(body: seq<Line>, drop: set<nat>, n: nat)
    requires n <= |body| && forall k: nat | k < n :: k in drop
    ensures Drop(body, drop, n) == []
  {
    if n > 0 {
      AllDropped(body, drop, n - 1);
    }
  }
}
