// Editing a card's repeatable properties. internal/vcard/edit.go
module Cards {
  import opened Text
  import opened Escaping
  import opened Documents
  import Brackets
  import opened Edits
  import Properties
  import opened Params

  // What the form edits of a number or an address: its text and its type.
  datatype Property = Property(value: string, kind: string)

  // A line already carries this type. No type asks for nothing.
  predicate HasType(params: string, kind: string) {
    kind == "" || exists v :: v in ParamValues(params, "TYPE") && EqualFold(v, kind)
  }

  function TypeParams(kind: string): string { if kind == "" then "" else ";TYPE=" + Upper(kind) }

  // The types the form offers.
  predicate Offered(kind: string) { Upper(kind) in {"CELL", "HOME", "WORK", "OTHER"} }

  function LowerChar(c: char): char {
    if 'A' <= c <= 'Z' then (c as int + 32) as char else c
  }

  function Lower(s: string): (l: string)
    ensures |l| == |s|
    ensures forall i | 0 <= i < |s| :: l[i] == LowerChar(s[i])
  {
    seq(|s|, i requires 0 <= i < |s| => LowerChar(s[i]))
  }

  function FirstOffered(values: seq<string>): Option<string> {
    if values == [] then None
    else if Offered(values[0]) then Some(values[0])
    else FirstOffered(values[1..])
  }

  // The type worth showing: the first one offered, or else the first.
  function ShownType(params: string): string {
    var values := ParamValues(params, "TYPE");
    match FirstOffered(values)
    case Some(v) => Lower(v)
    case None => if values == [] then "" else Lower(values[0])
  }

  // A written type is found again if and only if it needs no quoting.
  lemma TypeReads(kind: string)
    ensures HasType(TypeParams(kind), kind) <==> kind == "" || Clean(kind)
  {
    var params := TypeParams(kind);
    UpperTwice(kind);
    ValuesAreClean(Parameters(params), "TYPE");
    forall v | v in ParamValues(params, "TYPE") && EqualFold(v, kind) ensures Clean(kind) {
      CleanIgnoresCase(v, kind);
    }
    if kind != "" && Clean(kind) {
      TypeIsSingle(kind);
      assert Upper(kind) in [Upper(kind)];
    }
  }

  lemma TypeIsSingle(kind: string)
    requires kind != "" && Clean(kind)
    ensures ParamValues(TypeParams(kind), "TYPE") == [Upper(kind)]
  {
    UpperTwice(kind);
    CleanIgnoresCase(kind, Upper(kind));
    TypeText(Upper(kind));
    SingleValue("TYPE", Upper(kind));
  }

  lemma TypeText(v: string)
    ensures ";" + "TYPE" + "=" + v == ";TYPE=" + v
  {
  }

  // And it is the type the form shows.
  lemma TypeIsShown(kind: string)
    requires kind != "" && Clean(kind)
    ensures ShownType(TypeParams(kind)) == Lower(kind)
  {
    TypeIsSingle(kind);
    assert Lower(Upper(kind)) == Lower(kind);
    var values := [Upper(kind)];
    assert FirstOffered(values) == if Offered(Upper(kind)) then Some(Upper(kind)) else FirstOffered(values[1..]);
  }

  // A type a person would recognise.
  predicate Known(v: string) {
    EqualFold(v, "cell") || EqualFold(v, "home") || EqualFold(v, "work") || EqualFold(v, "other")
  }

  // The type shown is the first known one in lower case, or the first of all
  // when none is known, or none.
  lemma ShownIsFirstKnown(params: string)
    ensures var vs := ParamValues(params, "TYPE");
            (forall i | 0 <= i < |vs| && Known(vs[i]) && (forall j | 0 <= j < i :: !Known(vs[j])) ::
               ShownType(params) == Lower(vs[i])) &&
            ((forall i | 0 <= i < |vs| :: !Known(vs[i])) ==> ShownType(params) == if vs == [] then "" else Lower(vs[0]))
  {
    FirstKnown(ParamValues(params, "TYPE"));
  }

  lemma {:induction false} FirstKnown(vs: seq<string>)
    ensures forall i | 0 <= i < |vs| && Known(vs[i]) && (forall j | 0 <= j < i :: !Known(vs[j])) ::
              FirstOffered(vs) == Some(vs[i])
    ensures (forall i | 0 <= i < |vs| :: !Known(vs[i])) ==> FirstOffered(vs) == None
  {
    if vs != [] {
      FirstKnown(vs[1..]);
      KnownIsOffered(vs[0]);
      var rest := vs[1..];
      forall i | 0 <= i < |vs| && Known(vs[i]) && (forall j | 0 <= j < i :: !Known(vs[j]))
        ensures FirstOffered(vs) == Some(vs[i])
      {
        if i > 0 {
          assert rest[i - 1] == vs[i] && forall j | 0 <= j < i - 1 :: rest[j] == vs[j + 1];
          assert !Known(vs[0]);
        }
      }
      assert forall j | 0 <= j < |rest| :: rest[j] == vs[j + 1];
    }
  }

  lemma KnownIsOffered(v: string)
    ensures Known(v) <==> Offered(v)
  {
    assert Upper("cell") == "CELL" && Upper("home") == "HOME" && Upper("work") == "WORK" && Upper("other") == "OTHER";
  }

  // A line has a type when one of the parameters named TYPE, in any case,
  // holds it, in any case and bare or quoted.
  lemma TypesRead(ps: seq<Parameter>, kind: string)
    requires forall i | 0 <= i < |ps| :: PlainParameter(ps[i])
    ensures HasType(AllText(ps), kind) <==> kind == "" || exists v :: v in TextsOf(ps, "TYPE") && EqualFold(v, kind)
  {
    ReadsAll(ps, "TYPE");
  }

  // A line whose first type is a known one shows that type, and asking for it
  // leaves the line as it is, with all the types behind it.
  lemma FirstTypeStays(l: Line, ps: seq<Parameter>, kind: string)
    requires l.parts.params == AllText(ps) && forall i | 0 <= i < |ps| :: PlainParameter(ps[i])
    requires var vs := TextsOf(ps, "TYPE"); vs != [] && Known(vs[0]) && EqualFold(vs[0], kind)
    ensures ShownType(l.parts.params) == Lower(TextsOf(ps, "TYPE")[0]) && HasType(l.parts.params, kind)
    ensures Rewritten(l, Property(Unescape(l.parts.value), kind)) == l
  {
    var vs := TextsOf(ps, "TYPE");
    ReadsAll(ps, "TYPE");
    assert vs[0] in vs;
    ShownIsFirstKnown(l.parts.params);
  }

  // A line as phones write it: one parameter for each type, in small letters.
  function TypeParameter(v: string): Parameter { Parameter("type", [ValueForm(v, false)]) }

  function ThreeTypes(a: string, b: string, c: string): seq<Parameter> {
    [TypeParameter(a)] + ([TypeParameter(b)] + ([TypeParameter(c)] + []))
  }

  lemma ThreeTypesStay(l: Line)
    requires l.parts.params == ";type=" + "CELL" + (";type=" + "VOICE" + (";type=" + "pref" + ""))
    ensures ShownType(l.parts.params) == "cell" && Rewritten(l, Property(Unescape(l.parts.value), "cell")) == l
  {
    ThreeTypesRead("CELL", "VOICE", "pref");
    CellIsKnown();
    FirstTypeStays(l, ThreeTypes("CELL", "VOICE", "pref"), "cell");
  }

  lemma CellIsKnown()
    ensures EqualFold("CELL", "cell") && Known("CELL") && Lower("CELL") == "cell"
  {
    assert Upper("cell") == "CELL" == Upper("CELL");
  }

  lemma ThreeTypesRead(a: string, b: string, c: string)
    requires Clean(a) && Clean(b) && Clean(c)
    ensures var ps := ThreeTypes(a, b, c);
            AllText(ps) == ";type=" + a + (";type=" + b + (";type=" + c + "")) && TextsOf(ps, "TYPE") == [a, b, c] &&
            forall i | 0 <= i < |ps| :: PlainParameter(ps[i])
  {
    var last := [TypeParameter(c)] + [];
    var more := [TypeParameter(b)] + last;
    TypeFirst(c, []);
    TypeFirst(b, last);
    TypeFirst(a, more);
    ThreeInRow(a, b, c);
  }

  lemma ThreeInRow(a: string, b: string, c: string)
    ensures [a] + ([b] + ([c] + [])) == [a, b, c]
  {
  }

  lemma TypeFirst(v: string, rest: seq<Parameter>)
    ensures var ps := [TypeParameter(v)] + rest;
            AllText(ps) == ";type=" + v + AllText(rest) && TextsOf(ps, "TYPE") == [v] + TextsOf(rest, "TYPE")
  {
    var p := TypeParameter(v);
    Params.FirstParameter(p, rest, "TYPE");
    TypeParameterReads(v);
    assert ";" + ("type" + ("=" + v)) == ";type=" + v;
  }

  lemma TypeParameterReads(v: string)
    ensures ParameterText(TypeParameter(v)) == "type" + ("=" + v) && Texts(TypeParameter(v).values) == [v]
    ensures Upper(TypeParameter(v).key) == Upper("TYPE")
  {
    assert [ValueForm(v, false)][1..] == [];
    assert Upper("type") == "TYPE" == Upper("TYPE");
  }

  lemma NoTypeShown()
    ensures ShownType("") == ""
  {
    assert Parameters("") == [""];
    assert PartValues("", "TYPE") == [] && AllValues([""], "TYPE") == [];
  }

  // The type a line shows once it has been written: its own, where it had the
  // type among others, and else the one that was written. The form shows what
  // it asked for if and only if the line, if it had the type, showed that type.
  lemma KindShown(l: Line, want: Property)
    requires Clean(want.kind)
    ensures ShownType(Rewritten(l, want).parts.params) == Lower(want.kind) <==>
            (HasType(l.parts.params, want.kind) ==> ShownType(l.parts.params) == Lower(want.kind))
  {
    if want.kind != "" {
      TypeIsShown(want.kind);
    }
  }

  // A line with two types the form knows: asked for the second, the editor
  // finds it there, leaves the line alone, and the form goes on showing the
  // first.
  lemma SecondTypeStays(l: Line, v: string, w: string)
    requires Clean(v) && Clean(w) && w != "" && Offered(v) && l.parts.params == ";TYPE=" + (v + ("," + w))
    ensures HasType(l.parts.params, w) && ShownType(l.parts.params) == Lower(v)
    ensures Rewritten(l, Property(Unescape(l.parts.value), w)) == l
  {
    TwoValues("TYPE", v, w);
    TypeText(v + ("," + w));
    var values := [v, w];
    assert ParamValues(l.parts.params, "TYPE") == values;
    assert values[1] in values && EqualFold(values[1], w);
  }

  // ------------------------------------------------------------- the edit

  // An existing line given the value that is wanted: untouched when it has
  // it already, with its own parameters as long as the type is the same.
  function Rewritten(l: Line, want: Property): Line {
    var same := HasType(l.parts.params, want.kind);
    if Unescape(l.parts.value) == want.value && same then l
    else EditLine(l, if same then l.parts.params else TypeParams(want.kind), Escape(want.value))
  }

  // A line that holds the type among its parameters keeps them all, whatever
  // becomes of its value; another one gets the type alone. The value is written
  // anew just when it would not read as the one wanted, or the type is new.
  lemma RewrittenIs(l: Line, ps: seq<Parameter>, want: Property)
    requires l.parts.params == AllText(ps) && forall i | 0 <= i < |ps| :: PlainParameter(ps[i])
    ensures var had := want.kind == "" || exists v :: v in TextsOf(ps, "TYPE") && EqualFold(v, want.kind);
            var r := Rewritten(l, want);
            r.parts.params == (if had then l.parts.params else ";TYPE=" + Upper(want.kind)) &&
            r.parts.value == (if had && Unescape(l.parts.value) == want.value then l.parts.value else Escape(want.value)) &&
            r.parts.group == l.parts.group && r.parts.name == l.parts.name &&
            (r != l ==> r.dirty)
  {
    TypesRead(ps, want.kind);
  }

  predicate AllBelow(s: seq<nat>, n: nat) { forall i | 0 <= i < |s| :: s[i] < n }

  // The first n values written, each onto the line it is matched with or onto
  // a new one.
  function Written(e: Edit, name: string, existing: seq<nat>, values: seq<Property>, n: nat): (r: Edit)
    requires n <= |values| && AllBelow(existing, |e.lines|)
    ensures |r.lines| >= |e.lines| && r.span.begin == e.span.begin
  {
    if n == 0 then e
    else
      var f := Written(e, name, existing, values, n - 1);
      var want := values[n - 1];
      if n - 1 >= |existing| then InsertLine(f.lines, f.span, NewLine(name, TypeParams(want.kind), Escape(want.value)))
      else
        var i := existing[n - 1];
        Edit(f.lines[i := Rewritten(f.lines[i], want)], f.span)
  }

  // The matched lines from the last down to the given one removed, each with
  // its group. Nothing when an index no longer names a line.
  function RemovedDown(e: Edit, existing: seq<nat>, from: nat, to: nat): Option<Edit>
    requires from <= |existing| && e.span.begin >= -1
    decreases from
  {
    if from <= to then Some(e)
    else if existing[from - 1] >= |e.lines| then None
    else RemovedDown(RemoveLine(e.lines, e.span, existing[from - 1]), existing, from - 1, to)
  }

  function AllSet(e: Edit, name: string, values: seq<Property>): Option<Edit>
    requires e.span.begin >= -1
  {
    var existing := Occurrences(e.lines, e.span, Upper(name), e.span.begin + 1);
    OccurrencesInRange(e.lines, e.span, Upper(name), e.span.begin + 1);
    SetOver(e, name, existing, values)
  }

  // The values written over the lines matched with them, and what is left of
  // those removed.
  function SetOver(e: Edit, name: string, existing: seq<nat>, values: seq<Property>): Option<Edit>
    requires e.span.begin >= -1 && AllBelow(existing, |e.lines|)
  {
    RemovedDown(Written(e, name, existing, values, |values|), existing, |existing|, |values|)
  }

  lemma {:induction false} OccurrencesInRange(lines: seq<Line>, span: Span, name: string, i: nat)
    requires -1 <= span.begin < i
    ensures AllBelow(Occurrences(lines, span, name, i), |lines|)
    decreases |lines| - i
  {
    if i < |lines| {
      OccurrencesInRange(lines, span, name, i + 1);
      FirstBelow(i, Occurrences(lines, span, name, i + 1), |lines|);
    }
  }

  lemma FirstBelow(x: nat, s: seq<nat>, n: nat)
    requires x < n && AllBelow(s, n)
    ensures AllBelow([x] + s, n)
  {
  }

  function Shown(lines: seq<Line>): (r: seq<Property>)
    ensures |r| == |lines|
    ensures forall i | 0 <= i < |r| :: r[i] == Property(Unescape(lines[i].parts.value), ShownType(lines[i].parts.params))
  {
    seq(|lines|, i requires 0 <= i < |lines| =>
      Property(Unescape(lines[i].parts.value), ShownType(lines[i].parts.params)))
  }

  lemma ShownNext(lines: seq<Line>, i: nat)
    requires i < |lines|
    ensures var l := lines[i];
            Shown(lines[..i + 1]) == Shown(lines[..i]) + [Property(Unescape(l.parts.value), ShownType(l.parts.params))]
  {
  }

  // A document and where the card lies in it.
  class Card {
    const doc: Document
    const span: SpanVar

    constructor (doc: Document, span: SpanVar)
      ensures this.doc == doc && this.span == span
    {
      this.doc := doc;
      this.span := span;
    }

    // Opens stored bytes: there must be a card in them that says its version.
    static method Open(raw: string) returns (card: Option<Card>)
      ensures card.Some? ==>
                var at := card.value.span.at;
                card.value.doc.lines == ParseLines(raw) && IsFirstComponent(ParseLines(raw), "VCARD", at) &&
                PropertyValue(ParseLines(raw), at, Upper("VERSION")) != ""
      ensures card.None? ==>
                (forall b: nat, e: nat :: !IsComponent(ParseLines(raw), "VCARD", b, e)) ||
                (exists b: nat, e: nat ::
                   IsFirstComponent(ParseLines(raw), "VCARD", Span(b, e)) &&
                   PropertyValue(ParseLines(raw), Span(b, e), Upper("VERSION")) == "")
    {
      var doc := new Document.Parse(raw);
      if |doc.lines| == 0 {
        return None;
      }
      var found := doc.Component("VCARD");
      if found.None? {
        return None;
      }
      var version := doc.Value(found.value, "VERSION");
      if version == "" {
        assert IsFirstComponent(ParseLines(raw), "VCARD", Span(found.value.begin, found.value.end));
        return None;
      }
      var span := new SpanVar(found.value);
      var c := new Card(doc, span);
      return Some(c);
    }

    // The value and shown type of each of a property's lines.
    method Values(name: string) returns (out: seq<Property>)
      requires InRange(doc.lines, span.at)
      ensures out == Shown(Properties.LinesOf(Inside(doc.lines, span.at), Upper(name)))
    {
      var found := doc.FindAll(span.at, name);
      ghost var own := Properties.LinesOf(Inside(doc.lines, span.at), Upper(name));
      FoundLines(doc.lines, span.at, Upper(name));
      out := [];
      var i := 0;
      while i < |found|
        invariant 0 <= i <= |found| && LinesAt(doc.lines, found, own)
        invariant out == Shown(own[..i])
      {
        var l := doc.lines[found[i]];
        ShownNext(own, i);
        out := out + [Property(Unescape(l.parts.value), ShownType(l.parts.params))];
        i := i + 1;
      }
      assert own[..i] == own;
    }

    // Replaces every occurrence of a property, editing the existing lines in
    // order. Fails where an index would run past the end of the document.
    method SetAll(name: string, values: seq<Property>) returns (ok: bool)
      requires span.at.begin >= -1
      modifies doc, span
      ensures var r := AllSet(Edit(old(doc.lines), old(span.at)), name, values);
              ok == r.Some? && (ok ==> Edit(doc.lines, span.at) == r.value)
    {
      var existing := doc.FindAll(span.at, name);
      OccurrencesInRange(doc.lines, span.at, Upper(name), span.at.begin + 1);
      ok := SetEach(name, existing, values);
    }

    method SetEach(name: string, existing: seq<nat>, values: seq<Property>) returns (ok: bool)
      requires span.at.begin >= -1 && AllBelow(existing, |doc.lines|)
      modifies doc, span
      ensures var r := SetOver(Edit(old(doc.lines), old(span.at)), name, existing, values);
              ok == r.Some? && (ok ==> Edit(doc.lines, span.at) == r.value)
    {
      WriteAll(name, existing, values);
      ok := RemoveFrom(existing, |values|);
    }

    method WriteAll(name: string, existing: seq<nat>, values: seq<Property>)
      requires AllBelow(existing, |doc.lines|)
      modifies doc, span
      ensures Edit(doc.lines, span.at) == Written(Edit(old(doc.lines), old(span.at)), name, existing, values, |values|)
    {
      ghost var e := Edit(doc.lines, span.at);
      var i := 0;
      while i < |values|
        invariant 0 <= i <= |values|
        invariant Edit(doc.lines, span.at) == Written(e, name, existing, values, i)
      {
        var want := values[i];
        if i >= |existing| {
          doc.Insert(span, NewLine(name, TypeParams(want.kind), Escape(want.value)));
        } else {
          WriteOne(existing[i], want);
        }
        i := i + 1;
      }
    }

    method WriteOne(at: nat, want: Property)
      requires at < |doc.lines|
      modifies doc
      ensures doc.lines == old(doc.lines)[at := Rewritten(old(doc.lines)[at], want)]
    {
      var l := doc.lines[at];
      var value := UnescapeValue(l.parts.value);
      var types := ReadParams(l.parts.params, "TYPE");
      var sameType := want.kind == "" || exists k | 0 <= k < |types| :: EqualFold(types[k], want.kind);
      assert sameType == HasType(l.parts.params, want.kind);
      if value == want.value && sameType {
        return;
      }
      var params := l.parts.params;
      if !sameType {
        params := TypeParams(want.kind);
      }
      doc.Replace(at, params, Escape(want.value));
    }

    method RemoveFrom(existing: seq<nat>, keep: nat) returns (ok: bool)
      requires span.at.begin >= -1
      modifies doc, span
      ensures var r := RemovedDown(Edit(old(doc.lines), old(span.at)), existing, |existing|, keep);
              ok == r.Some? && (ok ==> Edit(doc.lines, span.at) == r.value)
    {
      ghost var e := Edit(doc.lines, span.at);
      var i: nat := |existing|;
      while i > keep
        invariant i <= |existing| && span.at.begin >= -1
        invariant RemovedDown(Edit(doc.lines, span.at), existing, i, keep) == RemovedDown(e, existing, |existing|, keep)
      {
        if existing[i - 1] >= |doc.lines| {
          return false;
        }
        doc.Remove(span, existing[i - 1]);
        i := i - 1;
      }
      return true;
    }
  }

  // ------------------------------------------------- where a name's lines are

  function Places(body: seq<Line>, name: string, n: nat): (r: seq<nat>)
    requires n <= |body|
    ensures forall k | 0 <= k < |r| :: r[k] < n
  {
    if n == 0 then []
    else if Properties.ByName(name)(Direct(body, n - 1), body[n - 1]) then Places(body, name, n - 1) + [n - 1]
    else Places(body, name, n - 1)
  }

  // The lines at those places are the lines of that name.
  lemma {:induction false} PlacesSelect(body: seq<Line>, name: string, n: nat)
    requires n <= |body|
    ensures var p, s := Places(body, name, n), Select(body, Properties.ByName(name), n);
            |p| == |s| && forall k | 0 <= k < |p| :: s[k] == body[p[k]]
  {
    if n > 0 {
      PlacesSelect(body, name, n - 1);
    }
  }

  lemma {:induction false} PlacesHold(body: seq<Line>, name: string, n: nat, k: nat)
    requires n <= |body| && k < |Places(body, name, n)|
    ensures var p := Places(body, name, n)[k];
            Direct(body, p) && body[p].parts.name == name && Places(body, name, p) == Places(body, name, n)[..k]
  {
    if k < |Places(body, name, n - 1)| {
      PlacesHold(body, name, n - 1, k);
      TakeFront(Places(body, name, n - 1), n - 1, k);
    }
  }

  lemma TakeFront(s: seq<nat>, x: nat, k: nat)
    requires k <= |s|
    ensures (s + [x])[..k] == s[..k]
  {
  }

  // Every direct line of that name is at one of them.
  lemma {:induction false} PlacesMiss(body: seq<Line>, name: string, m: nat, n: nat)
    requires m <= n <= |body| && Places(body, name, m) == Places(body, name, n)
    ensures forall j | m <= j < n :: !(body[j].parts.name == name && Direct(body, j))
  {
    if m < n {
      PlacesGrow(body, name, m, n - 1);
      PlacesMiss(body, name, m, n - 1);
    }
  }

  lemma {:induction false} PlacesGrow(body: seq<Line>, name: string, m: nat, n: nat)
    requires m <= n <= |body|
    ensures |Places(body, name, m)| <= |Places(body, name, n)|
    ensures Places(body, name, m) == Places(body, name, n)[..|Places(body, name, m)|]
  {
    if m < n {
      PlacesGrow(body, name, m, n - 1);
      TakeFront(Places(body, name, n - 1), n - 1, |Places(body, name, m)|);
    }
  }

  lemma {:induction false} PlacesSame(x: seq<Line>, y: seq<Line>, name: string, n: nat)
    requires n <= |x| && n <= |y|
    requires forall k | 0 <= k < n :: x[k].parts.name == y[k].parts.name
    ensures Places(x, name, n) == Places(y, name, n)
  {
    if n > 0 {
      PlacesSame(x, y, name, n - 1);
      Brackets.DepthAlike(x, y, 0, n - 1);
    }
  }

  function Shifted(s: seq<nat>, d: nat): (r: seq<nat>)
    ensures |r| == |s| && forall k | 0 <= k < |s| :: r[k] == s[k] + d
  {
    seq(|s|, k requires 0 <= k < |s| => s[k] + d)
  }

  lemma PlacesAreOccurrences(lines: seq<Line>, span: Span, name: string)
    requires InRange(lines, span)
    ensures var body := Inside(lines, span);
            Occurrences(lines, span, name, span.begin + 1) == Shifted(Places(body, name, |body|), span.begin + 1)
  {
    var body := Inside(lines, span);
    OccurrencesSplit(lines, span, name, |body|);
    NoOccurrences(lines, span, name, span.end);
    NothingBehind(Shifted(Places(body, name, |body|), span.begin + 1));
  }

  predicate LinesAt(lines: seq<Line>, at: seq<nat>, own: seq<Line>) {
    |at| == |own| && forall k | 0 <= k < |at| :: at[k] < |lines| && lines[at[k]] == own[k]
  }

  lemma FoundLines(lines: seq<Line>, span: Span, name: string)
    requires InRange(lines, span)
    ensures LinesAt(lines, Occurrences(lines, span, name, span.begin + 1), Properties.LinesOf(Inside(lines, span), name))
  {
    var body := Inside(lines, span);
    PlacesAreOccurrences(lines, span, name);
    PlacesSelect(body, name, |body|);
  }

  lemma NothingBehind(s: seq<nat>)
    ensures s + [] == s
  {
  }

  lemma {:induction false} OccurrencesSplit(lines: seq<Line>, span: Span, name: string, n: nat)
    requires InRange(lines, span) && n <= |Inside(lines, span)|
    ensures Shifted(Places(Inside(lines, span), name, n), span.begin + 1) + Occurrences(lines, span, name, span.begin + 1 + n) ==
            Occurrences(lines, span, name, span.begin + 1)
  {
    if n > 0 {
      var body := Inside(lines, span);
      OccurrencesSplit(lines, span, name, n - 1);
      ContainsInside(lines, span, n - 1);
      ShiftNext(Places(body, name, n - 1), n - 1, span.begin + 1, Occurrences(lines, span, name, span.begin + 1 + n));
    } else {
      assert Shifted([], span.begin + 1) == [];
    }
  }

  lemma ShiftNext(s: seq<nat>, x: nat, d: nat, rest: seq<nat>)
    ensures Shifted(s, d) + ([x + d] + rest) == Shifted(s + [x], d) + rest
  {
    assert Shifted(s + [x], d) == Shifted(s, d) + [x + d];
  }
}
