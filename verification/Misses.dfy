// What SetAll does when two of the occurrences it drops go together: the
// second removal is left with an index that names another line.
// internal/vcard/edit.go:113-116
module Misses {
  import opened Text
  import opened Lines
  import opened Documents
  import opened Edits
  import opened Frame
  import opened Properties
  import opened Cards
  import opened SetAll

  // In a component that nests nothing, a removal aimed at a grouped line takes
  // the component's lines of that group, wherever the line itself stands.
  lemma GroupedRemoval(e: Edit, i: nat)
    requires InRange(e.lines, e.span) && Flat(Inside(e.lines, e.span)) && i < |e.lines| && e.lines[i].parts.group != ""
    ensures var body := Inside(e.lines, e.span);
            RemoveLine(e.lines, e.span, i) ==
            Exchange(e.lines, e.span, OutsideGroup(body, e.lines[i].parts.group, |body|))
  {
    FlatCompacted(Inside(e.lines, e.span), e.lines[i].parts.group);
    CompactedIsInside(e.lines, e.span, e.lines[i].parts.group);
  }

  lemma FlatCompacted(body: seq<Line>, group: string)
    requires Flat(body)
    ensures CompactedInside(body, group, |body|) == OutsideGroup(body, group, |body|)
  {
    EarlyHasNoEcho(body, group, |body|);
    RemoveGroupExact(body, group, |body|);
    CompactedIsDrop(body, group, |body|);
    DropIsFilter(body, group, |body|, GroupLines(body, group, |body|));
  }

  // A removal leaves such a document as it is if and only if it is aimed at a
  // grouped line behind the component, in a group none of its lines is in.
  predicate Harmless(e: Edit, i: nat)
    requires InRange(e.lines, e.span)
  {
    var body := Inside(e.lines, e.span);
    e.span.end <= i < |e.lines| && e.lines[i].parts.group != "" && GroupAbsent(body, e.lines[i].parts.group, |body|)
  }

  lemma RemovalSpares(e: Edit, i: nat)
    requires InRange(e.lines, e.span) && Flat(Inside(e.lines, e.span)) && e.span.begin < i < |e.lines|
    ensures RemoveLine(e.lines, e.span, i) == e <==> Harmless(e, i)
  {
    var body, group := Inside(e.lines, e.span), e.lines[i].parts.group;
    if group != "" {
      GroupedRemoval(e, i);
      Unchanged(e.lines, e.span);
      AllOutside(body, group, |body|);
      AllTaken(body);
      if i < e.span.end {
        assert body[i - e.span.begin - 1] == e.lines[i];
      }
      SameInside(e, OutsideGroup(body, group, |body|));
    } else {
      assert |RemoveLine(e.lines, e.span, i).lines| == |e.lines| - 1;
    }
  }

  lemma AllTaken(s: seq<Line>)
    ensures s[..|s|] == s
  {
  }

  lemma SameInside(e: Edit, body: seq<Line>)
    requires InRange(e.lines, e.span)
    ensures Exchange(e.lines, e.span, body) == e <==> body == Inside(e.lines, e.span)
  {
    Unchanged(e.lines, e.span);
    ExchangeFrames(e, body);
  }

  // Two occurrences are to go, and they share a group.
  predicate PairGoes(e: Edit, name: string, n: nat)
    requires InRange(e.lines, e.span)
  {
    var own := LinesOf(Inside(e.lines, e.span), Upper(name));
    |own| == n + 2 && own[n].parts.group == own[n + 1].parts.group != ""
  }

  // What was asked for then: the values written, and the pair gone with its
  // group.
  function Asked(e: Edit, name: string, values: seq<Property>, eol: string): Edit
    requires InRange(e.lines, e.span) && PairGoes(e, name, |values|)
  {
    var w := PairBody(e, name, values, eol);
    Exchange(e.lines, e.span, OutsideGroup(w, LinesOf(Inside(e.lines, e.span), Upper(name))[|values|].parts.group, |w|))
  }

  // Where the first of the pair stood.
  function FirstOfPair(e: Edit, name: string, n: nat): nat
    requires InRange(e.lines, e.span)
  {
    var places := Places(Inside(e.lines, e.span), Upper(name), |Inside(e.lines, e.span)|);
    if n < |places| then e.span.begin + 1 + places[n] else 0
  }

  // The editor gets to what was asked for, and then removes what stands there.
  lemma PairExact(e: Edit, eol: string, name: string, values: seq<Property>)
    requires Begins(e, eol) && Flat(Inside(e.lines, e.span)) && PairGoes(e, name, |values|)
    requires Upper(name) !in {"BEGIN", "END"}
    ensures var f, at := Asked(e, name, values, eol), FirstOfPair(e, name, |values|);
            AllSet(e, name, values) == if at < |f.lines| then Some(RemoveLine(f.lines, f.span, at)) else None
  {
    var n, asked := |values|, Asked(e, name, values, eol);
    var existing, f := PairWritten(e, eol, name, values);
    LastOfPair(e, eol, name, values, existing, f, asked);
    AskedIsFlat(e, eol, name, values);
    TwoRemovals(f, existing, n, asked);
  }

  function PairBody(e: Edit, name: string, values: seq<Property>, eol: string): seq<Line>
    requires InRange(e.lines, e.span)
  {
    var body := Inside(e.lines, e.span);
    WriteInside(body, Places(body, Upper(name), |body|), name, values, |values|, eol)
  }

  lemma PairWritten(e: Edit, eol: string, name: string, values: seq<Property>) returns (existing: seq<nat>, f: Edit)
    requires Begins(e, eol) && PairGoes(e, name, |values|)
    ensures f == Exchange(e.lines, e.span, PairBody(e, name, values, eol))
    ensures |existing| == |values| + 2 && existing[|values|] == FirstOfPair(e, name, |values|)
    ensures var body := Inside(e.lines, e.span);
            existing == Shifted(Places(body, Upper(name), |body|), e.span.begin + 1)
    ensures AllSet(e, name, values) == RemovedDown(f, existing, |existing|, |values|)
  {
    var places := FoundInside(e, name);
    var a;
    existing, a := AllSetIsOver(e, name, values);
    f := Written(e, name, existing, values, |values|);
    CountAll(Inside(e.lines, e.span), Upper(name));
    WritesAreInside(e, eol, places, name, values, |values|, PairBody(e, name, values, eol), f);
  }

  lemma LastOfPair(e: Edit, eol: string, name: string, values: seq<Property>, existing: seq<nat>, f: Edit, asked: Edit)
    requires Begins(e, eol) && Flat(Inside(e.lines, e.span)) && PairGoes(e, name, |values|)
    requires Upper(name) !in {"BEGIN", "END"}
    requires f == Exchange(e.lines, e.span, PairBody(e, name, values, eol)) && asked == Asked(e, name, values, eol)
    requires var body := Inside(e.lines, e.span);
             existing == Shifted(Places(body, Upper(name), |body|), e.span.begin + 1)
    ensures f.span.begin == e.span.begin && |existing| == |values| + 2 && existing[|values| + 1] < |f.lines|
    ensures RemoveLine(f.lines, f.span, existing[|values| + 1]) == asked
  {
    var places := FoundInside(e, name);
    var w := PairBody(e, name, values, eol);
    var k := |values| + 1;
    PairStillThere(Inside(e.lines, e.span), places, name, values, eol, w);
    GroupedGoes(e, w, w[places[k]].parts.group, OutsideGroup(w, w[places[k]].parts.group, |w|), places[k], existing[k], f);
  }

  lemma GroupedGoes(e: Edit, w: seq<Line>, group: string, left: seq<Line>, k: nat, at: nat, f: Edit)
    requires InRange(e.lines, e.span) && f == Exchange(e.lines, e.span, w) && Flat(w)
    requires k < |w| && w[k].parts.group == group != "" && at == e.span.begin + 1 + k && left == OutsideGroup(w, group, |w|)
    ensures at < |f.lines| && f.span.begin == e.span.begin
    ensures RemoveLine(f.lines, f.span, at) == Exchange(e.lines, e.span, left)
  {
    ExchangedLine(e, w, k, f);
    GroupedRemoval(f, at);
    ExchangeTwice(e, w, left);
  }

  lemma ExchangedLine(e: Edit, w: seq<Line>, k: nat, f: Edit)
    requires InRange(e.lines, e.span) && f == Exchange(e.lines, e.span, w) && k < |w|
    ensures InRange(f.lines, f.span) && f.span.begin == e.span.begin && Inside(f.lines, f.span) == w
    ensures e.span.begin + 1 + k < |f.lines| && f.lines[e.span.begin + 1 + k] == w[k]
  {
    ExchangeFrames(e, w);
    assert Inside(f.lines, f.span)[k] == f.lines[e.span.begin + 1 + k];
  }

  lemma TwoRemovals(e: Edit, existing: seq<nat>, n: nat, f: Edit)
    requires e.span.begin >= -1 && f.span.begin >= -1 && |existing| == n + 2 && existing[n + 1] < |e.lines|
    requires RemoveLine(e.lines, e.span, existing[n + 1]) == f
    ensures RemovedDown(e, existing, n + 2, n) ==
            if existing[n] < |f.lines| then Some(RemoveLine(f.lines, f.span, existing[n])) else None
  {
    assert RemovedDown(e, existing, n + 2, n) == RemovedDown(f, existing, n + 1, n);
    if existing[n] < |f.lines| {
      assert RemovedDown(RemoveLine(f.lines, f.span, existing[n]), existing, n, n) ==
             Some(RemoveLine(f.lines, f.span, existing[n]));
    }
  }

  // The writes leave names and groups alone.
  lemma PairStillThere(body: seq<Line>, places: seq<nat>, name: string, values: seq<Property>, eol: string, w: seq<Line>)
    requires Flat(body) && Upper(name) !in {"BEGIN", "END"} && AllBelow(places, |body|)
    requires places == Places(body, Upper(name), |body|) && |LinesOf(body, Upper(name))| == |values| + 2
    requires w == WriteInside(body, places, name, values, |values|, eol)
    ensures |w| == |body| && Flat(w) && |places| == |values| + 2
    ensures forall i | 0 <= i < |places| :: w[places[i]].parts.group == LinesOf(body, Upper(name))[i].parts.group
  {
    var scope := Ungrouped({Upper(name)});
    FlatIsSound(body, scope);
    WriteKeeps(body, places, scope, name, values, |values|, eol, w);
    PlacesSelect(body, Upper(name), |body|);
    assert SameShape(body, w);
    forall i | 0 <= i < |places| ensures w[places[i]].parts.group == LinesOf(body, Upper(name))[i].parts.group {
      assert LinesOf(body, Upper(name))[i] == body[places[i]];
    }
  }

  lemma FlatIsSound(body: seq<Line>, scope: Scope)
    requires Flat(body) && PlainNames(scope) && scope.groups == {}
    ensures Sound(body, scope)
  {
    forall k | 0 <= k <= |body| ensures Depth(body, 0, k) == 0 {
      FlatDepth(body, 0, k);
    }
  }

  // So a pair dropped together is never dropped as it was asked, except where
  // the spare removal falls on a grouped line behind the component and finds
  // nothing of that group in it.
  lemma PairMisses(e: Edit, eol: string, name: string, values: seq<Property>)
    requires Begins(e, eol) && Flat(Inside(e.lines, e.span)) && PairGoes(e, name, |values|)
    requires Upper(name) !in {"BEGIN", "END"}
    ensures var f, at := Asked(e, name, values, eol), FirstOfPair(e, name, |values|);
            InRange(f.lines, f.span) && (AllSet(e, name, values) == Some(f) <==> Harmless(f, at))
  {
    var f, at := Asked(e, name, values, eol), FirstOfPair(e, name, |values|);
    PairExact(e, eol, name, values);
    AskedIsFlat(e, eol, name, values);
    if at < |f.lines| {
      CountAll(Inside(e.lines, e.span), Upper(name));
      RemovalSpares(f, at);
    }
  }

  // In a document with nothing grouped from the END on, it never is.
  lemma PairNeverDropped(e: Edit, eol: string, name: string, values: seq<Property>)
    requires Begins(e, eol) && Flat(Inside(e.lines, e.span)) && PairGoes(e, name, |values|)
    requires Upper(name) !in {"BEGIN", "END"}
    requires forall i | e.span.end <= i < |e.lines| :: e.lines[i].parts.group in {""}
    ensures AllSet(e, name, values) != Some(Asked(e, name, values, eol))
  {
    var w := PairBody(e, name, values, eol);
    var group := LinesOf(Inside(e.lines, e.span), Upper(name))[|values|].parts.group;
    PairMisses(e, eol, name, values);
    UngroupedBehind(e, OutsideGroup(w, group, |w|));
  }

  lemma UngroupedBehind(e: Edit, body: seq<Line>)
    requires InRange(e.lines, e.span) && forall i | e.span.end <= i < |e.lines| :: e.lines[i].parts.group in {""}
    ensures var f := Exchange(e.lines, e.span, body);
            forall i | f.span.end <= i < |f.lines| :: f.lines[i].parts.group in {""}
  {
    ExchangeFrames(e, body);
    var f := Exchange(e.lines, e.span, body);
    forall i | f.span.end <= i < |f.lines| ensures f.lines[i].parts.group in {""} {
      assert f.lines[i] == f.lines[f.span.end..][i - f.span.end] == e.lines[e.span.end..][i - f.span.end];
    }
  }

  lemma AskedIsFlat(e: Edit, eol: string, name: string, values: seq<Property>)
    requires Begins(e, eol) && Flat(Inside(e.lines, e.span)) && PairGoes(e, name, |values|)
    requires Upper(name) !in {"BEGIN", "END"}
    ensures var f := Asked(e, name, values, eol);
            InRange(f.lines, f.span) && f.span.begin == e.span.begin && Flat(Inside(f.lines, f.span))
  {
    var body := Inside(e.lines, e.span);
    var places := FoundInside(e, name);
    var w := WriteInside(body, places, name, values, |values|, eol);
    PairStillThere(body, places, name, values, eol, w);
    var group := LinesOf(body, Upper(name))[|values|].parts.group;
    OutsideIsFlat(w, group, |w|);
    ExchangeFrames(e, OutsideGroup(w, group, |w|));
  }

  lemma {:induction false} OutsideIsFlat(body: seq<Line>, group: string, n: nat)
    requires n <= |body| && FlatTo(body, n)
    ensures Flat(OutsideGroup(body, group, n))
  {
    if n > 0 {
      OutsideIsFlat(body, group, n - 1);
    }
  }

  // ---------------------------------------------------------- two lost cards

  lemma TwoPlaces(body: seq<Line>)
    requires Flat(body) && |body| == 2 && forall k | 0 <= k < 2 :: body[k].parts.name == "TEL"
    ensures Places(body, "TEL", 2) == [0, 1]
  {
    FlatThroughout(body);
    assert Places(body, "TEL", 1) == [0];
  }

  // Two numbers of one group, and none is to be left: the second removal
  // takes the END of the card, and nothing is reported.
  lemma PairTakesEnd(begin: Line, end: Line)
    requires Bracket(begin) == 1 && Bracket(end) == -1 && begin.parts.group == "" == end.parts.group
    ensures var e := Edit([begin, Phone("1"), Phone("2"), end], Span(0, 3));
            AllSet(e, "TEL", []) == Some(Edit([begin], Span(0, 0)))
  {
    var body := [Phone("1"), Phone("2")];
    var lines := [begin] + body + [end];
    var e := Edit(lines, Span(0, 3));
    assert lines == [begin, Phone("1"), Phone("2"), end];
    assert Inside(lines, e.span) == body && Upper("TEL") == "TEL";
    PlacesAreOccurrences(lines, e.span, "TEL");
    TwoPlaces(body);
    var existing := Shifted([0, 1], 1);
    assert existing == [1, 2] && Written(e, "TEL", existing, [], 0) == e;
    WholeGroupGoes(lines, body, begin, end);
    var f := Edit([begin, end], Span(0, 1));
    assert RemoveLine(lines, e.span, 2) == f;
    assert f.lines == [begin] + [end];
    EndGoes([begin], end, f);
    TwoRemovals(e, existing, 0, f);
  }

  lemma EndGoes(front: seq<Line>, end: Line, f: Edit)
    requires front != [] && end.parts.group == "" && f == Edit(front + [end], Span(0, |front|))
    ensures RemoveLine(f.lines, f.span, |front|) == Edit(front, Span(0, |front| - 1))
  {
    assert (front + [end])[..|front|] + (front + [end])[|front| + 1..] == front;
  }

  function Label(): Line {
    Line("item1.X-ABLABEL:a", "\r\n", Parts("item1", "X-ABLABEL", "", "a"), false, false)
  }

  function LoneNumber(): Line { Line("TEL:1", "\r\n", Parts("", "TEL", "", "1"), false, false) }

  // A label, a number in no group, and the number the label belongs to: no two
  // numbers share a group. None is to be left; one is, and the END is not.
  lemma LabelTakesEnd(begin: Line, end: Line)
    requires Bracket(begin) == 1 && Bracket(end) == -1 && begin.parts.group == "" == end.parts.group
    ensures var e := Edit([begin, Label(), LoneNumber(), Phone("2"), end], Span(0, 4));
            AllSet(e, "TEL", []) == Some(Edit([begin, LoneNumber()], Span(0, 1)))
  {
    var one := LoneNumber();
    var body := [Label(), one, Phone("2")];
    var lines := [begin] + body + [end];
    var e := Edit(lines, Span(0, 4));
    assert lines == [begin, Label(), one, Phone("2"), end];
    assert Inside(lines, e.span) == body && Upper("TEL") == "TEL";
    PlacesAreOccurrences(lines, e.span, "TEL");
    BehindLabel(body);
    var existing := Shifted([1, 2], 1);
    assert existing == [2, 3] && Written(e, "TEL", existing, [], 0) == e;
    var f := Edit([begin, one, end], Span(0, 2));
    LabelRemoval(begin, body, end, e, f);
    assert f.lines == [begin, one] + [end];
    EndGoes([begin, one], end, f);
    TwoRemovals(e, existing, 0, f);
  }

  lemma LabelRemoval(begin: Line, body: seq<Line>, end: Line, e: Edit, f: Edit)
    requires body == [Label(), LoneNumber(), Phone("2")] && e == Edit([begin] + body + [end], Span(0, 4))
    requires f == Edit([begin, LoneNumber(), end], Span(0, 2))
    ensures RemoveLine(e.lines, e.span, 3) == f
  {
    assert Inside(e.lines, e.span) == body && e.lines[3] == body[2];
    GroupedRemoval(e, 3);
    LabelAndNumberGo(body);
    assert e.lines[..1] + [LoneNumber()] + e.lines[4..] == f.lines;
  }

  lemma BehindLabel(body: seq<Line>)
    requires |body| == 3 && Flat(body) && body[0].parts.name == "X-ABLABEL" && body[1].parts.name == "TEL" == body[2].parts.name
    ensures Places(body, "TEL", 3) == [1, 2]
  {
    FlatThroughout(body);
    assert Places(body, "TEL", 1) == [];
    assert Places(body, "TEL", 2) == [1];
  }

  lemma LabelAndNumberGo(body: seq<Line>)
    requires body == [Label(), LoneNumber(), Phone("2")]
    ensures OutsideGroup(body, "item1", 3) == [LoneNumber()]
  {
    assert OutsideGroup(body, "item1", 1) == [];
    assert OutsideGroup(body, "item1", 2) == [LoneNumber()];
  }
}
