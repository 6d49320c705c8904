// What an edit does to the lines inside a component, and what it leaves
// alone. internal/contentline/contentline.go:211-323
module Edits {
  import opened Documents
  import Brackets

  predicate InRange(lines: seq<Line>, span: Span) { -1 <= span.begin < span.end <= |lines| }

  // The lines between a component's BEGIN and END.
  function Inside(lines: seq<Line>, span: Span): seq<Line>
    requires InRange(lines, span)
  {
    lines[span.begin + 1..span.end]
  }

  // The document with the inside of a component exchanged.
  function Exchange(lines: seq<Line>, span: Span, body: seq<Line>): Edit
    requires InRange(lines, span)
  {
    Edit(lines[..span.begin + 1] + body + lines[span.end..], Span(span.begin, span.begin + 1 + |body|))
  }

  predicate Direct(body: seq<Line>, k: nat)
    requires k <= |body|
  {
    Depth(body, 0, k) == 0
  }

  lemma ContainsInside(lines: seq<Line>, span: Span, k: nat)
    requires InRange(lines, span) && k < |Inside(lines, span)|
    ensures Contains(lines, span, span.begin + 1 + k) <==> Direct(Inside(lines, span), k)
  {
    Brackets.DepthSame(lines, span.begin + 1, Inside(lines, span), 0, k);
  }

  // ------------------------------------------- selecting lines of a component

  type Choice = (bool, Line) -> bool

  // Those of the first n lines a choice takes, told whether each is direct.
  function Select(body: seq<Line>, choice: Choice, n: nat): seq<Line>
    requires n <= |body|
  {
    if n == 0 then []
    else if choice(Direct(body, n - 1), body[n - 1]) then Select(body, choice, n - 1) + [body[n - 1]]
    else Select(body, choice, n - 1)
  }

  lemma {:induction false} SelectPrefix(x: seq<Line>, y: seq<Line>, choice: Choice, n: nat)
    requires n <= |x| && n <= |y| && forall k | 0 <= k < n :: x[k] == y[k]
    ensures Select(x, choice, n) == Select(y, choice, n)
  {
    if n > 0 {
      SelectPrefix(x, y, choice, n - 1);
      Brackets.DepthSame(x, 0, y, 0, n - 1);
    }
  }

  lemma SelectAppend(body: seq<Line>, l: Line, choice: Choice)
    ensures var next := body + [l];
            Select(next, choice, |next|) ==
            if choice(Direct(body, |body|), l) then Select(body, choice, |body|) + [l]
            else Select(body, choice, |body|)
  {
    var next := body + [l];
    assert Select(next, choice, |body|) == Select(body, choice, |body|) by {
      SelectPrefix(body, next, choice, |body|);
    }
    assert Direct(next, |body|) == Direct(body, |body|) by {
      Brackets.DepthSame(body, 0, next, 0, |body|);
    }
    LastSelected(next, choice, |body|, Select(body, choice, |body|), Direct(body, |body|), l);
  }

  lemma LastSelected(body: seq<Line>, choice: Choice, n: nat, s: seq<Line>, direct: bool, l: Line)
    requires n < |body| && s == Select(body, choice, n) && direct == Direct(body, n) && l == body[n]
    ensures Select(body, choice, n + 1) == if choice(direct, l) then s + [l] else s
  {
  }

  // Changing a line the choice ignores, before and after, changes nothing.
  lemma SelectReplace(body: seq<Line>, k: nat, l: Line, choice: Choice, n: nat)
    requires k < |body| && n <= |body| && Bracket(l) == Bracket(body[k])
    requires !choice(Direct(body, k), body[k]) && !choice(Direct(body, k), l)
    ensures Select(body[k := l], choice, n) == Select(body, choice, n)
  {
    SelectIgnores(body, body[k := l], k, choice, n);
  }

  lemma {:induction false} SelectIgnores(x: seq<Line>, y: seq<Line>, k: nat, choice: Choice, n: nat)
    requires n <= |x| == |y| && k < |x| && Bracket(x[k]) == Bracket(y[k])
    requires forall i | 0 <= i < |x| && i != k :: x[i] == y[i]
    requires !choice(Direct(x, k), x[k]) && !choice(Direct(x, k), y[k])
    ensures Select(x, choice, n) == Select(y, choice, n)
  {
    if n > 0 {
      SelectIgnores(x, y, k, choice, n - 1);
      Brackets.DepthAlike(x, y, 0, n - 1);
    }
  }

  function Drop(body: seq<Line>, drop: set<nat>, n: nat): seq<Line>
    requires n <= |body|
  {
    if n == 0 then []
    else if n - 1 in drop then Drop(body, drop, n - 1)
    else Drop(body, drop, n - 1) + [body[n - 1]]
  }

  // Dropping lines that are no brackets keeps every depth.
  lemma {:induction false} DropDepth(body: seq<Line>, drop: set<nat>, n: nat)
    requires n <= |body| && forall k | k in drop && k < n :: Bracket(body[k]) == 0
    ensures Depth(Drop(body, drop, n), 0, |Drop(body, drop, n)|) == Depth(body, 0, n)
  {
    if n > 0 {
      DropDepth(body, drop, n - 1);
      Brackets.DepthAppend(Drop(body, drop, n - 1), body[n - 1]);
    }
  }

  // Dropping lines the choice ignores changes nothing it selects.
  lemma {:induction false} SelectDrop(body: seq<Line>, drop: set<nat>, choice: Choice, n: nat)
    requires n <= |body|
    requires forall k | k in drop && k < n :: Bracket(body[k]) == 0 && !choice(Direct(body, k), body[k])
    ensures var kept := Drop(body, drop, n); Select(kept, choice, |kept|) == Select(body, choice, n)
  {
    if n > 0 {
      SelectDrop(body, drop, choice, n - 1);
      DropDepth(body, drop, n - 1);
      SelectAppend(Drop(body, drop, n - 1), body[n - 1], choice);
    }
  }

  lemma {:induction false} DropOne(body: seq<Line>, k: nat, n: nat)
    requires k < |body| && n <= |body|
    ensures Drop(body, {k}, n) == if n <= k then body[..n] else body[..k] + body[k + 1..n]
  {
    if n > 0 {
      DropOne(body, k, n - 1);
    }
  }

  // ------------------------------------------------ removing a group in place

  // The depth the counter finds at j when the kept lines stand at the front
  // and the cells behind them are stale.
  lemma HalfDepth(lines: seq<Line>, kept: seq<Line>, from: nat, j: nat)
    requires from <= |kept| <= j <= |lines|
    ensures Depth(kept + lines[|kept|..], from, j) == Depth(kept, from, |kept|) + Depth(lines, |kept|, j)
  {
    var a := kept + lines[|kept|..];
    Brackets.DepthSplit(a, from, |kept|, j);
    Brackets.DepthSame(a, from, kept, from, |kept| - from);
    Brackets.DepthSame(a, |kept|, lines, |kept|, j - |kept|);
  }

  predicate ReadsDirect(body: seq<Line>, kept: seq<Line>, j: nat)
    requires |kept| <= j <= |body|
  {
    Depth(kept, 0, |kept|) + Depth(body, |kept|, j) == 0
  }

  // The compaction of a component's own lines.
  function CompactedInside(body: seq<Line>, group: string, j: nat): (kept: seq<Line>)
    requires j <= |body|
    ensures |kept| <= j
  {
    if j == 0 then []
    else
      var kept := CompactedInside(body, group, j - 1);
      if body[j - 1].parts.group == group && ReadsDirect(body, kept, j - 1) then kept
      else kept + [body[j - 1]]
  }

  // Removal leaves what surrounds the component alone.
  lemma CompactedIsInside(lines: seq<Line>, span: Span, group: string)
    requires InRange(lines, span)
    ensures var body := Inside(lines, span);
            Compacted(lines, span, group, |lines|) ==
            Exchange(lines, span, CompactedInside(body, group, |body|)).lines
  {
    CompactedAfter(lines, span, group, |lines|);
  }

  lemma {:induction false} CompactedBefore(lines: seq<Line>, span: Span, group: string, j: nat)
    requires InRange(lines, span) && j <= span.begin + 1
    ensures Compacted(lines, span, group, j) == lines[..j]
  {
    if j > 0 {
      CompactedBefore(lines, span, group, j - 1);
    }
  }

  lemma {:induction false} CompactedWithin(lines: seq<Line>, span: Span, group: string, j: nat)
    requires InRange(lines, span) && j <= |Inside(lines, span)|
    ensures Compacted(lines, span, group, span.begin + 1 + j) ==
            lines[..span.begin + 1] + CompactedInside(Inside(lines, span), group, j)
  {
    if j == 0 {
      CompactedNone(lines, span, group);
    } else {
      var i := j - 1;
      CompactedWithin(lines, span, group, i);
      CompactedNext(lines, span, group, i, CompactedInside(Inside(lines, span), group, i));
    }
  }

  lemma CompactedNone(lines: seq<Line>, span: Span, group: string)
    requires InRange(lines, span)
    ensures Compacted(lines, span, group, span.begin + 1) ==
            lines[..span.begin + 1] + CompactedInside(Inside(lines, span), group, 0)
  {
    CompactedBefore(lines, span, group, span.begin + 1);
  }

  lemma CompactedNext(lines: seq<Line>, span: Span, group: string, j: nat, kept: seq<Line>)
    requires InRange(lines, span) && j < |Inside(lines, span)| && kept == CompactedInside(Inside(lines, span), group, j)
    requires Compacted(lines, span, group, span.begin + 1 + j) == lines[..span.begin + 1] + kept
    ensures Compacted(lines, span, group, span.begin + 1 + (j + 1)) ==
            lines[..span.begin + 1] + CompactedInside(Inside(lines, span), group, j + 1)
  {
    var p := span.begin + 1;
    ReadsAlike(lines, span, kept, j);
    assert lines[..p] + (kept + [Inside(lines, span)[j]]) == (lines[..p] + kept) + [lines[p + j]];
  }

  lemma ReadsAlike(lines: seq<Line>, span: Span, kept: seq<Line>, j: nat)
    requires InRange(lines, span) && |kept| <= j < |Inside(lines, span)|
    ensures var front := lines[..span.begin + 1] + kept;
            Contains(front + lines[|front|..], span, span.begin + 1 + j) <==> ReadsDirect(Inside(lines, span), kept, j)
  {
    var p := span.begin + 1;
    var front := lines[..p] + kept;
    HalfDepth(lines, front, p, p + j);
    DepthOfKept(lines[..p], kept);
    DepthInside(lines, span, |kept|, j);
  }

  lemma DepthOfKept(front: seq<Line>, kept: seq<Line>)
    ensures Depth(front + kept, |front|, |front + kept|) == Depth(kept, 0, |kept|)
  {
    Brackets.DepthSame(front + kept, |front|, kept, 0, |kept|);
  }

  lemma DepthInside(lines: seq<Line>, span: Span, i: nat, j: nat)
    requires InRange(lines, span) && i <= j <= |Inside(lines, span)|
    ensures Depth(lines, span.begin + 1 + i, span.begin + 1 + j) == Depth(Inside(lines, span), i, j)
  {
    Brackets.DepthSame(lines, span.begin + 1 + i, Inside(lines, span), i, j - i);
  }

  lemma {:induction false} CompactedAfter(lines: seq<Line>, span: Span, group: string, j: nat)
    requires InRange(lines, span) && span.end <= j <= |lines|
    ensures var body := Inside(lines, span);
            Compacted(lines, span, group, j) ==
            lines[..span.begin + 1] + CompactedInside(body, group, |body|) + lines[span.end..j]
  {
    if j == span.end {
      CompactedWithin(lines, span, group, |Inside(lines, span)|);
      assert lines[span.end..j] == [];
    } else {
      var m := j - 1;
      CompactedAfter(lines, span, group, m);
      AppendNext(lines[..span.begin + 1] + CompactedInside(Inside(lines, span), group, |Inside(lines, span)|),
                 lines, span.end, m);
    }
  }

  lemma AppendNext(front: seq<Line>, lines: seq<Line>, i: nat, j: nat)
    requires i <= j < |lines|
    ensures front + lines[i..j] + [lines[j]] == front + lines[i..j + 1]
  {
  }

  // Which of the first j lines the compaction drops.
  function DroppedInPlace(body: seq<Line>, group: string, j: nat): (d: set<nat>)
    requires j <= |body|
    ensures forall k | k in d :: k < j
  {
    if j == 0 then {}
    else
      var d := DroppedInPlace(body, group, j - 1);
      if body[j - 1].parts.group == group && ReadsDirect(body, CompactedInside(body, group, j - 1), j - 1)
      then d + {j - 1} else d
  }

  lemma {:induction false} CompactedIsDrop(body: seq<Line>, group: string, j: nat)
    requires j <= |body|
    ensures CompactedInside(body, group, j) == Drop(body, DroppedInPlace(body, group, j), j)
  {
    if j > 0 {
      CompactedIsDrop(body, group, j - 1);
      DropSame(body, DroppedInPlace(body, group, j - 1), DroppedInPlace(body, group, j), j - 1);
    }
  }

  lemma {:induction false} DropSame(body: seq<Line>, d: set<nat>, e: set<nat>, n: nat)
    requires n <= |body| && forall k: nat | k < n :: k in d <==> k in e
    ensures Drop(body, d, n) == Drop(body, e, n)
  {
    if n > 0 {
      DropSame(body, d, e, n - 1);
    }
  }

  // The group's lines among the first n that belong to the component directly.
  function GroupLines(body: seq<Line>, group: string, n: nat): set<nat>
    requires n <= |body|
  {
    if n == 0 then {}
    else if body[n - 1].parts.group == group && Direct(body, n - 1) then GroupLines(body, group, n - 1) + {n - 1}
    else GroupLines(body, group, n - 1)
  }

  // What the group's own lines among the first n open, less what they close.
  function GroupDepth(body: seq<Line>, group: string, n: nat): int
    requires n <= |body|
  {
    if n == 0 then 0
    else if body[n - 1].parts.group == group && Direct(body, n - 1) then GroupDepth(body, group, n - 1) + Bracket(body[n - 1])
    else GroupDepth(body, group, n - 1)
  }

  // The compaction reads the lines just before j twice, as many of them as
  // have been dropped, and those dropped no more. They must not tip the counter
  // at a line of the group.
  predicate QuietAt(body: seq<Line>, group: string, j: nat)
    requires j <= |body|
  {
    var r := |GroupLines(body, group, j)|;
    r <= j && (Depth(body, 0, j) == 0 <==> Depth(body, 0, j) - GroupDepth(body, group, j) + Depth(body, j - r, j) == 0)
  }

  predicate NoEcho(body: seq<Line>, group: string, n: nat)
    requires n <= |body|
  {
    forall j | 0 <= j < n && body[j].parts.group == group :: QuietAt(body, group, j)
  }

  // No line of the group is itself a BEGIN or END line.
  predicate PlainGroup(body: seq<Line>, group: string) {
    forall j | 0 <= j < |body| && body[j].parts.group == group :: Bracket(body[j]) == 0
  }

  // What is left of some lines when those of a group are taken out.
  function OutsideGroup(lines: seq<Line>, group: string, n: nat): (r: seq<Line>)
    requires n <= |lines|
    ensures |r| <= n
  {
    if n == 0 then []
    else if lines[n - 1].parts.group == group then OutsideGroup(lines, group, n - 1)
    else OutsideGroup(lines, group, n - 1) + [lines[n - 1]]
  }

  // Removing a group in place drops exactly the group's direct lines if and
  // only if no line is read twice with an effect.
  lemma {:induction false} RemoveGroupExact(body: seq<Line>, group: string, n: nat)
    requires n <= |body|
    ensures DroppedInPlace(body, group, n) == GroupLines(body, group, n) <==> NoEcho(body, group, n)
  {
    if n > 0 {
      RemoveGroupExact(body, group, n - 1);
      ExactStep(body, group, n - 1);
    }
  }

  predicate DropsTheGroup(body: seq<Line>, group: string, n: nat)
    requires n <= |body|
  {
    DroppedInPlace(body, group, n) == GroupLines(body, group, n)
  }

  lemma ExactStep(body: seq<Line>, group: string, j: nat)
    requires j < |body| && (DropsTheGroup(body, group, j) <==> NoEcho(body, group, j))
    ensures DropsTheGroup(body, group, j + 1) <==> NoEcho(body, group, j + 1)
  {
    NoEchoStep(body, group, j);
    if DropsTheGroup(body, group, j) {
      DropsAlike(body, group, j);
    } else {
      StillDiffers(body, group, j);
    }
  }

  // Two lines of a group around a nested component: when the second is looked
  // at its END line is read twice, and the line stays.
  lemma EchoKeepsLine(g: Line, begin: Line, end: Line)
    requires Bracket(g) == 0 && Bracket(begin) == 1 && Bracket(end) == -1
    requires begin.parts.group != g.parts.group && end.parts.group != g.parts.group
    ensures var body := [g, begin, end, g];
            Direct(body, 3) && CompactedInside(body, g.parts.group, 4) == [begin, end, g] &&
            !NoEcho(body, g.parts.group, 4)
  {
    var body, group := [g, begin, end, g], g.parts.group;
    assert Depth(body, 0, 1) == 0 && Depth(body, 0, 2) == 1 && Depth(body, 0, 3) == 0;
    assert CompactedInside(body, group, 1) == [];
    assert CompactedInside(body, group, 2) == [begin];
    assert CompactedInside(body, group, 3) == [begin, end];
    assert Depth([begin, end], 0, 1) == 1 && Depth([begin, end], 0, 2) == 0;
    assert Depth(body, 2, 3) == -1;
    assert ReadsDirect(body, [begin, end], 3) == false;
    assert GroupLines(body, group, 1) == {0} == GroupLines(body, group, 3);
    assert GroupDepth(body, group, 1) == 0 == GroupDepth(body, group, 3);
    assert !QuietAt(body, group, 3);
  }

  lemma DropsAlike(body: seq<Line>, group: string, j: nat)
    requires j < |body|
    requires DroppedInPlace(body, group, j) == GroupLines(body, group, j)
    ensures DroppedInPlace(body, group, j + 1) == GroupLines(body, group, j + 1) <==>
            (body[j].parts.group == group ==> QuietAt(body, group, j))
  {
    DecidesByEcho(body, group, j);
    var d := DroppedInPlace(body, group, j);
    assert j in d + {j} && j !in d;
  }

  lemma NoEchoStep(body: seq<Line>, group: string, j: nat)
    requires j < |body|
    ensures NoEcho(body, group, j + 1) <==>
            NoEcho(body, group, j) && (body[j].parts.group == group ==> QuietAt(body, group, j))
  {
  }

  lemma DecidesByEcho(body: seq<Line>, group: string, j: nat)
    requires j < |body|
    requires DroppedInPlace(body, group, j) == GroupLines(body, group, j)
    ensures body[j].parts.group == group ==>
              ((ReadsDirect(body, CompactedInside(body, group, j), j) <==> Direct(body, j)) <==> QuietAt(body, group, j))
    ensures j !in GroupLines(body, group, j)
  {
    var g := GroupLines(body, group, j);
    GroupLinesBelow(body, group, j);
    CompactedIsDrop(body, group, j);
    GroupDropDepth(body, group, j);
    DropLength(body, g, j);
  }

  // Dropping the group's lines takes away what they open and close.
  lemma {:induction false} GroupDropDepth(body: seq<Line>, group: string, n: nat)
    requires n <= |body|
    ensures var kept := Drop(body, GroupLines(body, group, n), n);
            Depth(kept, 0, |kept|) == Depth(body, 0, n) - GroupDepth(body, group, n)
  {
    if n > 0 {
      GroupDropDepth(body, group, n - 1);
      GroupLinesBelow(body, group, n - 1);
      DropSame(body, GroupLines(body, group, n - 1), GroupLines(body, group, n), n - 1);
      Brackets.DepthAppend(Drop(body, GroupLines(body, group, n - 1), n - 1), body[n - 1]);
    }
  }

  // A plain group opens and closes nothing.
  lemma {:induction false} PlainGroupDepth(body: seq<Line>, group: string, n: nat)
    requires n <= |body| && PlainGroup(body, group)
    ensures GroupDepth(body, group, n) == 0
  {
    if n > 0 {
      PlainGroupDepth(body, group, n - 1);
    }
  }

  lemma StillDiffers(body: seq<Line>, group: string, j: nat)
    requires j < |body| && DroppedInPlace(body, group, j) != GroupLines(body, group, j)
    ensures DroppedInPlace(body, group, j + 1) != GroupLines(body, group, j + 1)
  {
    var d, g := DroppedInPlace(body, group, j), GroupLines(body, group, j);
    GroupLinesBelow(body, group, j);
    var k: nat :| k < j && (k in d) != (k in g);
    assert (k in DroppedInPlace(body, group, j + 1)) == (k in d);
    assert (k in GroupLines(body, group, j + 1)) == (k in g);
  }

  lemma {:induction false} GroupLinesBelow(body: seq<Line>, group: string, n: nat)
    requires n <= |body|
    ensures forall k :: k in GroupLines(body, group, n) <==>
              0 <= k < n && body[k].parts.group == group && Direct(body, k)
  {
    if n > 0 {
      GroupLinesBelow(body, group, n - 1);
    }
  }

  lemma {:induction false} DropLength(body: seq<Line>, d: set<nat>, n: nat)
    requires n <= |body| && forall k | k in d :: k < n
    ensures |Drop(body, d, n)| == n - |d|
  {
    if n > 0 {
      if n - 1 in d {
        DropLength(body, d - {n - 1}, n - 1);
        DropSame(body, d - {n - 1}, d, n - 1);
      } else {
        DropLength(body, d, n - 1);
      }
    } else {
      assert d == {};
    }
  }
}
