// Applying a contact to a card and reading it back. internal/vcard/contact.go
module Contacts {
  import opened Text
  import opened Escaping
  import opened Documents
  import opened Edits
  import opened Frame
  import opened Properties
  import opened Cards
  import opened SetAll
  import Brackets
  import Durations

  datatype Contact = Contact(formattedName: string, familyName: string, givenName: string, organisation: string,
                             title: string, note: string, phones: seq<Property>, emails: seq<Property>, url: string)

  // --------------------------------------------------------- structured values

  function StructuredName(family: string, given: string): string {
    if family == "" && given == "" then "" else Escape(family) + ";" + Escape(given) + ";;;"
  }

  // A name reads back as its two parts and three empty ones.
  lemma NameReads(family: string, given: string)
    requires family != "" || given != ""
    ensures SplitStructured(StructuredName(family, given)) == [StripCR(family), StripCR(given), "", "", ""]
  {
    var parts := [family, given, "", "", ""];
    assert parts[1..][1..][1..][1..] == [""];
    assert parts[1..][1..][1..] == ["", ""] && ["", ""][1..] == [""];
    assert parts[1..][1..] == ["", "", ""] && ["", "", ""][1..] == ["", ""];
    assert parts[1..] == [given, "", "", ""] && [given, "", "", ""][1..] == ["", "", ""];
    assert Escape("") == "";
    assert JoinEscaped([""]) == "";
    assert JoinEscaped(["", ""]) == ";";
    assert JoinEscaped(["", "", ""]) == ";;";
    JoinedName(family, given);
    SplitJoin(parts);
    assert StripAll(parts) == [StripCR(family), StripCR(given), "", "", ""];
  }

  lemma JoinedName(family: string, given: string)
    requires JoinEscaped(["", "", ""]) == ";;"
    requires family != "" || given != ""
    ensures JoinEscaped([family, given, "", "", ""]) == StructuredName(family, given)
  {
    var parts := [family, given, "", "", ""];
    assert parts[1..] == [given, "", "", ""] && parts[1..][1..] == ["", "", ""];
    assert JoinEscaped(parts[1..]) == Escape(given) + (";" + ";;");
    assert JoinEscaped(parts) == Escape(family) + (";" + (Escape(given) + (";" + ";;")));
    assert Escape(family) + (";" + (Escape(given) + (";" + ";;"))) == Escape(family) + ";" + Escape(given) + ";;;";
  }

  // The first field replaced, whatever fields follow it.
  function OrganisationText(organisation: string, current: string): string {
    if organisation == "" then "" else JoinEscaped([organisation] + SplitStructured(current)[1..])
  }

  method OrganisationValue(organisation: string, current: string) returns (value: string)
    ensures value == OrganisationText(organisation, current)
  {
    if organisation == "" {
      return "";
    }
    var rest := SplitStructuredValue(current);
    value := Escape(organisation);
    JoinOne(organisation);
    var i := 1;
    while i < |rest|
      invariant 1 <= i <= |rest|
      invariant value == JoinEscaped([organisation] + rest[1..i])
    {
      JoinNext([organisation] + rest[1..i], rest[i]);
      OneFieldMore(organisation, rest, i);
      value := value + (";" + Escape(rest[i]));
      i := i + 1;
    }
    AllFields(rest);
  }

  lemma OneFieldMore(first: string, rest: seq<string>, i: nat)
    requires 1 <= i < |rest|
    ensures [first] + rest[1..i + 1] == ([first] + rest[1..i]) + [rest[i]]
  {
  }

  lemma AllFields(rest: seq<string>)
    requires rest != []
    ensures rest[1..|rest|] == rest[1..]
  {
  }

  lemma JoinOne(s: string)
    ensures JoinEscaped([s]) == Escape(s) && [s] + [] == [s]
  {
  }

  lemma {:induction false} JoinNext(parts: seq<string>, s: string)
    requires parts != []
    ensures JoinEscaped(parts + [s]) == JoinEscaped(parts) + (";" + Escape(s))
  {
    RestOfBoth(parts, s);
    if |parts| > 1 {
      JoinNext(parts[1..], s);
      RegroupJoin(Escape(parts[0]), JoinEscaped(parts[1..]), ";" + Escape(s));
    }
  }

  lemma RestOfBoth(parts: seq<string>, s: string)
    requires parts != []
    ensures (parts + [s])[1..] == parts[1..] + [s]
  {
  }

  lemma RegroupJoin(a: string, b: string, c: string)
    ensures a + (";" + (b + c)) == (a + (";" + b)) + c
  {
  }

  // The organisation reads back as it was given, and every department behind
  // it as it was.
  lemma OrganisationReads(organisation: string, current: string)
    requires organisation != "" && '\r' !in current
    ensures SplitStructured(OrganisationText(organisation, current)) ==
            [StripCR(organisation)] + SplitStructured(current)[1..]
  {
    var fields := SplitStructured(current);
    SplitJoin([organisation] + fields[1..]);
    FieldsKeepNoCR(current, "");
    StripRest(organisation, fields);
  }

  lemma StripRest(first: string, fields: seq<string>)
    requires fields != [] && forall i | 0 <= i < |fields| :: '\r' !in fields[i]
    ensures StripAll([first] + fields[1..]) == [StripCR(first)] + fields[1..]
  {
  }

  function FirstField(s: string): string { SplitStructured(s)[0] }

  // ---------------------------------------------- what passes a write unharmed

  // The lines of a name the scope spares can be told from what the scope
  // leaves: the brackets are all still there.
  lemma {:induction false} LinesThrough(body: seq<Line>, scope: Scope, name: string, n: nat)
    requires n <= |body| && Orderly(body, scope, n) && PlainNames(scope)
    requires name !in scope.names && name in scope.spared
    ensures var s := Select(body, Others(scope), n);
            Depth(s, 0, |s|) == Depth(body, 0, n) &&
            Select(s, ByName(name), |s|) == Select(body, ByName(name), n)
  {
    if n > 0 {
      LinesThrough(body, scope, name, n - 1);
      assert Fits(body, n - 1, body[n - 1], scope);
      var s := Select(body, Others(scope), n - 1);
      SelectAppend(s, body[n - 1], ByName(name));
      Brackets.DepthAppend(s, body[n - 1]);
    }
  }

  // ------------------------------------------------------------------- steps

  // What the form does to a card: write one property, or all of one name.
  datatype Step = One(name: string, value: string) | All(name: string, values: seq<Property>)

  function StepEdit(e: Edit, s: Step): Option<Edit>
    requires e.span.begin >= -1
    ensures StepEdit(e, s).Some? ==> StepEdit(e, s).value.span.begin == e.span.begin
  {
    match s
    case One(name, value) => Some(SetProperty(e.lines, e.span, name, value, None))
    case All(name, values) =>
      AllSetBegins(e, name, values);
      AllSet(e, name, values)
  }

  lemma AllSetBegins(e: Edit, name: string, values: seq<Property>)
    requires e.span.begin >= -1
    ensures AllSet(e, name, values).Some? ==> AllSet(e, name, values).value.span.begin == e.span.begin
  {
    var existing := Occurrences(e.lines, e.span, Upper(name), e.span.begin + 1);
    OccurrencesInRange(e.lines, e.span, Upper(name), e.span.begin + 1);
    RemovedBegins(Written(e, name, existing, values, |values|), existing, |existing|, |values|);
  }

  lemma {:induction false} RemovedBegins(e: Edit, existing: seq<nat>, from: nat, to: nat)
    requires from <= |existing| && e.span.begin >= -1
    ensures var r := RemovedDown(e, existing, from, to); r.Some? ==> r.value.span.begin == e.span.begin
    decreases from
  {
    if from > to && existing[from - 1] < |e.lines| {
      RemovedBegins(RemoveLine(e.lines, e.span, existing[from - 1]), existing, from - 1, to);
    }
  }

  // What a step does to the lines of its name.
  function StepLines(lines: seq<Line>, s: Step, eol: string): seq<Line> {
    match s
    case One(name, value) => PutLine(lines, name, value, None, eol)
    case All(name, values) => Wanted(lines, name, values, |values|, eol)[..|values|]
  }

  function RunSteps(e: Edit, steps: seq<Step>): Option<Edit>
    requires e.span.begin >= -1
    decreases |steps|
  {
    if steps == [] then Some(e)
    else
      match StepEdit(e, steps[0])
      case Some(f) => RunSteps(f, steps[1..])
      case None => None
  }

  function Effects(lines: seq<Line>, steps: seq<Step>, name: string, eol: string): seq<Line>
    decreases |steps|
  {
    if steps == [] then lines
    else Effects(if Upper(steps[0].name) == name then StepLines(lines, steps[0], eol) else lines, steps[1..], name, eol)
  }

  function Own(e: Edit, name: string): seq<Line>
    requires InRange(e.lines, e.span)
  {
    LinesOf(Inside(e.lines, e.span), name)
  }

  // The groups a step takes along, told from the lines of its name.
  function Goes(own: seq<Line>, s: Step): set<string> {
    match s
    case One(_, value) => {GoesAlong(own, value)} - {""}
    case All(_, values) => if |values| < |own| then GroupsOf(own[|values|..]) else {}
  }

  // The scope covers a step: its name, the groups it takes along, and for a
  // list that these stand so that each removal hits the line it is meant for.
  predicate Covers(e: Edit, scope: Scope, s: Step)
    requires InRange(e.lines, e.span)
  {
    Upper(s.name) in scope.names && Goes(Own(e, Upper(s.name)), s) <= scope.groups &&
    (s.All? ==> Upper(s.name) in scope.heads)
  }

  // The lines of one name share no group among them, those of two names none
  // between them.
  predicate Unshared(e: Edit, written: string, name: string)
    requires InRange(e.lines, e.span)
  {
    if written == name then Singly(Own(e, name)) else GroupsOf(Own(e, written)) !! GroupsOf(Own(e, name))
  }

  predicate UnsharedBy(e: Edit, names: set<string>, name: string)
    requires InRange(e.lines, e.span)
  {
    forall n | n in names :: Unshared(e, n, name)
  }

  predicate GroupsApart(e: Edit, names: set<string>)
    requires InRange(e.lines, e.span)
  {
    forall n | n in names :: UnsharedBy(e, names, n)
  }

  predicate StepDone(e: Edit, f: Edit, eol: string, scope: Scope, s: Step, name: string) {
    Prepared(e, eol, scope) && Prepared(f, eol, scope) && SameFrame(e, f, scope) &&
    Own(f, name) == if Upper(s.name) == name then StepLines(Own(e, name), s, eol) else Own(e, name)
  }

  lemma StepReads(e: Edit, eol: string, scope: Scope, s: Step, name: string)
    requires Prepared(e, eol, scope) && Covers(e, scope, s) && Unshared(e, Upper(s.name), name)
    ensures var r := StepEdit(e, s); r.Some? && StepDone(e, r.value, eol, scope, s, name)
  {
    match s
    case One(_, value) => OneReads(e, eol, scope, s, name);
    case All(_, values) => AllReads(e, eol, scope, s, name);
  }

  lemma OneReads(e: Edit, eol: string, scope: Scope, s: Step, name: string)
    requires Prepared(e, eol, scope) && Covers(e, scope, s) && Unshared(e, Upper(s.name), name) && s.One?
    ensures StepDone(e, SetProperty(e.lines, e.span, s.name, s.value, None), eol, scope, s, name)
  {
    var body, own := Inside(e.lines, e.span), Own(e, Upper(s.name));
    var op := Put(s.name, s.value, None);
    AlongIsTheirs(own, s.value);
    TiedCanPut(body, scope, s.name, s.value);
    ApplyKeeps(e, op, scope);
    PutIsInside(e, op, eol, scope);
    if Upper(s.name) == name {
      PutOwn(body, scope, s.name, s.value, None, eol);
    } else {
      PutOther(body, scope, s.name, s.value, None, eol, name);
      OutsideAbsent(Own(e, name), GoesAlong(own, s.value));
    }
  }

  lemma AllReads(e: Edit, eol: string, scope: Scope, s: Step, name: string)
    requires Prepared(e, eol, scope) && Covers(e, scope, s) && Unshared(e, Upper(s.name), name) && s.All?
    ensures var r := AllSet(e, s.name, s.values); r.Some? && StepDone(e, r.value, eol, scope, s, name)
  {
    var body := Inside(e.lines, e.span);
    var r := SetAllInside(body, s.name, s.values, eol);
    GoingAreCovered(e, scope, s);
    HeadsAreHit(body, scope, Upper(s.name), |s.values|);
    SetAllInsideReads(body, scope, s.name, s.values, eol);
    SetAllIsInside(e, eol, s.name, s.values, r);
    FrameOfExchange(e, scope, r.value, Exchange(e.lines, e.span, r.value));
    StillBegins(e, eol, r.value);
    if Upper(s.name) == name {
      DropExact(Own(e, name), s.name, s.values, eol);
      SinglyGoesAlone(Own(e, name), |s.values|);
    } else {
      AllLeavesOthers(e, eol, scope, s, name);
    }
  }

  lemma GoingAreCovered(e: Edit, scope: Scope, s: Step)
    requires InRange(e.lines, e.span) && Covers(e, scope, s) && s.All?
    ensures forall k | |s.values| <= k < |Own(e, Upper(s.name))| ::
              Own(e, Upper(s.name))[k].parts.group in Goes(Own(e, Upper(s.name)), s) + {""}
  {
    var own := Own(e, Upper(s.name));
    forall k | |s.values| <= k < |own| ensures own[k].parts.group in Goes(own, s) + {""} {
      var going := own[|s.values|..];
      assert going[k - |s.values|] == own[k];
    }
  }

  lemma SinglyGoesAlone(own: seq<Line>, n: nat)
    requires Singly(own)
    ensures GoesAlone(own, n)
  {
  }

  // Setting all of one name leaves the lines of a name that shares no group
  // with it alone.
  lemma AllLeavesOthers(e: Edit, eol: string, scope: Scope, s: Step, other: string)
    requires Prepared(e, eol, scope) && Covers(e, scope, s) && s.All?
    requires other != Upper(s.name) && Unshared(e, Upper(s.name), other)
    ensures var body := Inside(e.lines, e.span);
            var r := SetAllInside(body, s.name, s.values, eol);
            r.Some? && LinesOf(r.value, other) == LinesOf(body, other)
  {
    var body, name := Inside(e.lines, e.span), Upper(s.name);
    var own := Scope({name}, Goes(Own(e, name), s), {name}, {other});
    SparesOther(e, scope, own, s, other);
    GoingAreCovered(e, scope, s);
    HeadsAreHit(body, own, name, |s.values|);
    SetAllInsideReads(body, own, s.name, s.values, eol);
    var next := SetAllInside(body, s.name, s.values, eol).value;
    LinesThrough(body, own, other, |body|);
    LinesThrough(next, own, other, |next|);
  }

  lemma SparesOther(e: Edit, scope: Scope, own: Scope, s: Step, other: string)
    requires Opened(e, scope) && Ordered(e, scope) && Covers(e, scope, s) && s.All?
    requires other != Upper(s.name) && Unshared(e, Upper(s.name), other)
    requires own == Scope({Upper(s.name)}, Goes(Own(e, Upper(s.name)), s), {Upper(s.name)}, {other})
    ensures Sound(Inside(e.lines, e.span), own)
  {
    var body := Inside(e.lines, e.span);
    GoesAreTheirs(Own(e, Upper(s.name)), s);
    forall k | 0 <= k < |body| ensures Fits(body, k, body[k], own) {
      assert Fits(body, k, body[k], scope);
      if body[k].parts.group in own.groups && body[k].parts.name == other {
        FlatDepth(body, 0, k);
        InItsGroups(body, k);
      }
    }
  }

  lemma GoesAreTheirs(own: seq<Line>, s: Step)
    requires s.All?
    ensures Goes(own, s) <= GroupsOf(own)
  {
    if |s.values| < |own| {
      var going := own[|s.values|..];
      assert forall i | 0 <= i < |going| :: going[i] == own[i + |s.values|];
    }
  }

  lemma InItsGroups(body: seq<Line>, k: nat)
    requires k < |body| && Direct(body, k) && body[k].parts.group != ""
    ensures body[k].parts.group in GroupsOf(LinesOf(body, body[k].parts.name))
  {
    var own := LinesOf(body, body[k].parts.name);
    SelectUpdate(body, ByName(body[k].parts.name), k, body[k], |body|);
    var r := |Select(body, ByName(body[k].parts.name), k)|;
    assert own[r] == body[k];
  }

  lemma StepThins(own: seq<Line>, s: Step, eol: string)
    requires Singly(own)
    ensures Thinner(StepLines(own, s, eol), own)
  {
    match s
    case One(name, value) => PutThins(own, name, value, None, eol);
    case All(name, values) =>
      SetAllThins(own, name, values, eol);
      DropExact(own, name, values, eol);
      SinglyGoesAlone(own, |values|);
  }

  // A card whose named properties can be edited one by one.
  predicate Ready(e: Edit, eol: string, scope: Scope) { Prepared(e, eol, scope) && GroupsApart(e, scope.names) }

  predicate CoversAll(e: Edit, scope: Scope, steps: seq<Step>)
    requires InRange(e.lines, e.span)
  {
    forall i | 0 <= i < |steps| :: Covers(e, scope, steps[i])
  }

  // A step leaves the card ready for those behind it that have other names.
  lemma StaysReady(e: Edit, f: Edit, eol: string, scope: Scope, s: Step, rest: seq<Step>, name: string)
    requires Ready(e, eol, scope) && Covers(e, scope, s) && UnsharedBy(e, scope.names, name) && StepEdit(e, s) == Some(f)
    requires CoversAll(e, scope, rest) && forall i | 0 <= i < |rest| :: Upper(rest[i].name) != Upper(s.name)
    ensures Ready(f, eol, scope) && SameFrame(e, f, scope) && CoversAll(f, scope, rest) && UnsharedBy(f, scope.names, name)
  {
    StepReads(e, eol, scope, s, name);
    forall n | n in scope.names + {name} ensures UnsharedBy(f, scope.names, n) {
      NameStaysApart(e, f, eol, scope, s, n);
    }
    forall i | 0 <= i < |rest| ensures Covers(f, scope, rest[i]) {
      assert Covers(e, scope, rest[i]);
      StepReads(e, eol, scope, s, Upper(rest[i].name));
    }
  }

  lemma NameStaysApart(e: Edit, f: Edit, eol: string, scope: Scope, s: Step, name: string)
    requires Ready(e, eol, scope) && Covers(e, scope, s) && UnsharedBy(e, scope.names, name) && StepEdit(e, s) == Some(f)
    requires InRange(f.lines, f.span)
    ensures UnsharedBy(f, scope.names, name)
  {
    OwnThins(e, f, eol, scope, s, name);
    forall n | n in scope.names ensures Unshared(f, n, name) {
      assert Unshared(e, n, name);
      OwnThins(e, f, eol, scope, s, n);
    }
  }

  lemma OwnThins(e: Edit, f: Edit, eol: string, scope: Scope, s: Step, name: string)
    requires Ready(e, eol, scope) && Covers(e, scope, s) && UnsharedBy(e, scope.names, name) && StepEdit(e, s) == Some(f)
    ensures InRange(f.lines, f.span) && Thinner(Own(f, name), Own(e, name))
  {
    assert Unshared(e, Upper(s.name), name);
    StepReads(e, eol, scope, s, name);
    if Upper(s.name) == name {
      StepThins(Own(e, name), s, eol);
    }
  }

  lemma {:induction false} RunStepsRead(e: Edit, eol: string, scope: Scope, steps: seq<Step>, more: seq<Step>, name: string)
    requires Ready(e, eol, scope) && UnsharedBy(e, scope.names, name)
    requires CoversAll(e, scope, steps + more) && Apart(steps + more)
    ensures var r := RunSteps(e, steps);
            r.Some? && Ready(r.value, eol, scope) && SameFrame(e, r.value, scope) &&
            CoversAll(r.value, scope, more) && UnsharedBy(r.value, scope.names, name) &&
            Own(r.value, name) == Effects(Own(e, name), steps, name, eol)
    decreases |steps|
  {
    if steps == [] {
      assert steps + more == more;
    } else {
      var s, rest := steps[0], steps[1..] + more;
      FirstApart(steps, more);
      assert Covers(e, scope, (steps + more)[0]);
      assert Unshared(e, Upper(s.name), name);
      StepReads(e, eol, scope, s, name);
      StaysReady(e, StepEdit(e, s).value, eol, scope, s, rest, name);
      RunStepsRead(StepEdit(e, s).value, eol, scope, steps[1..], more, name);
    }
  }

  lemma FirstApart(steps: seq<Step>, more: seq<Step>)
    requires steps != [] && Apart(steps + more)
    ensures var rest := steps[1..] + more;
            (steps + more)[0] == steps[0] && Apart(rest) &&
            (forall i | 0 <= i < |rest| :: rest[i] == (steps + more)[i + 1]) &&
            forall i | 0 <= i < |rest| :: Upper(rest[i].name) != Upper(steps[0].name)
  {
    var rest := steps[1..] + more;
    assert (steps + more)[1..] == rest;
    assert forall i | 0 <= i < |rest| :: rest[i] == (steps + more)[i + 1];
  }

  // Where no two steps share a name each name is written by its own step.
  predicate Apart(steps: seq<Step>) {
    forall i, j | 0 <= i < j < |steps| :: Upper(steps[i].name) != Upper(steps[j].name)
  }

  lemma {:induction false} EffectOfOne(lines: seq<Line>, steps: seq<Step>, k: nat, eol: string)
    requires k < |steps| && Apart(steps)
    ensures Effects(lines, steps, Upper(steps[k].name), eol) == StepLines(lines, steps[k], eol)
  {
    if k == 0 {
      NoEffect(StepLines(lines, steps[0], eol), steps[1..], Upper(steps[0].name), eol);
    } else {
      EffectOfOne(lines, steps[1..], k - 1, eol);
    }
  }

  lemma {:induction false} NoEffect(lines: seq<Line>, steps: seq<Step>, name: string, eol: string)
    requires forall i | 0 <= i < |steps| :: Upper(steps[i].name) != name
    ensures Effects(lines, steps, name, eol) == lines
    decreases |steps|
  {
    if steps != [] {
      NoEffect(lines, steps[1..], name, eol);
    }
  }

  // --------------------------------------------------------------- the contact

  // What the contact is called: by its formatted name, or by its parts.
  function DisplayName(c: Contact): string {
    if c.formattedName != "" then c.formattedName
    else Durations.TrimSpace(c.givenName + " " + c.familyName)
  }

  // A contact needs at least a name.
  predicate Named(c: Contact) {
    Durations.TrimSpace(c.formattedName) != "" || Durations.TrimSpace(c.givenName) != "" ||
    Durations.TrimSpace(c.familyName) != ""
  }

  function NonEmpty(props: seq<Property>): seq<Property> {
    if props == [] then []
    else if Durations.TrimSpace(props[0].value) != "" then [props[0]] + NonEmpty(props[1..])
    else NonEmpty(props[1..])
  }

  // Just the blank ones go, and the others keep their order.
  lemma {:induction false} BlankOnesGo(a: seq<Property>, p: Property, b: seq<Property>)
    ensures NonEmpty(a + [p] + b) == NonEmpty(a) + (if Durations.Blank(p.value) then [] else [p]) + NonEmpty(b)
    ensures NonEmpty([]) == []
    decreases |a|
  {
    var all := a + [p] + b;
    if a == [] {
      assert all[1..] == b;
      Durations.TrimSpaceExactly(p.value);
    } else {
      assert all[1..] == a[1..] + [p] + b;
      BlankOnesGo(a[1..], p, b);
    }
  }

  // No white space at its ends.
  predicate Stands(s: string) { s == "" || (!Durations.Blank(s[..1]) && !Durations.Blank(s[|s| - 1..])) }

  // Without a formatted name a contact is called by its given name and then
  // its family name, without the white space around the two.
  lemma CalledByParts(c: Contact, before: string, name: string, behind: string)
    requires c.formattedName == "" && c.givenName + " " + c.familyName == before + name + behind
    requires Durations.Blank(before) && Durations.Blank(behind) && Stands(name)
    ensures DisplayName(c) == name
  {
    if name != "" {
      assert name[..1][0] == name[0] && name[|name| - 1..][0] == name[|name| - 1];
      Durations.TrimmedBetween(before, name, behind);
    } else {
      Durations.TrimSpaceExactly(before + name + behind);
    }
  }

  // By the two with a space between them, or by the one there is.
  lemma CalledByBoth(c: Contact)
    requires c.formattedName == "" && Stands(c.givenName) && Stands(c.familyName)
    ensures DisplayName(c) ==
            if c.givenName == "" then c.familyName
            else if c.familyName == "" then c.givenName
            else c.givenName + " " + c.familyName
  {
    if c.givenName == "" {
      assert "" + " " + c.familyName == " " + c.familyName + "";
      CalledByParts(c, if c.familyName == "" then "" else " ", c.familyName, if c.familyName == "" then " " else "");
    } else if c.familyName == "" {
      assert c.givenName + " " + "" == "" + c.givenName + " ";
      CalledByParts(c, "", c.givenName, " ");
    } else {
      BothStand(c.givenName, c.familyName);
      CalledByParts(c, "", c.givenName + " " + c.familyName, "");
    }
  }

  lemma BothStand(given: string, family: string)
    requires given != "" && family != "" && Stands(given) && Stands(family)
    ensures Stands(given + " " + family)
    ensures given + " " + family == "" + (given + " " + family) + ""
  {
    var s := given + " " + family;
    assert s[..1] == given[..1] && s[|s| - 1..] == family[|family| - 1..];
    assert s + "" == s;
  }

  function TextSteps(c: Contact): seq<Step> {
    [One("FN", Escape(DisplayName(c))), One("N", StructuredName(c.familyName, c.givenName)), One("TITLE", Escape(c.title)),
     One("NOTE", Escape(c.note)), One("URL", Escape(c.url))]
  }

  function ListSteps(c: Contact): seq<Step> {
    [All("TEL", NonEmpty(c.phones)), All("EMAIL", NonEmpty(c.emails))]
  }

  function LastSteps(c: Contact, stamp: string, organisation: string): seq<Step> {
    [One("ORG", OrganisationText(c.organisation, organisation)), One("REV", Escape(stamp))]
  }

  // The value as it stands in the first line of a name, or nothing.
  function RawText(e: Edit, name: string): string
    requires e.span.begin >= -1
  {
    match FindFirst(e.lines, e.span, name)
    case Some(i) => e.lines[i].parts.value
    case None => ""
  }

  function AppliedContact(e: Edit, c: Contact, stamp: string): Option<Edit>
    requires e.span.begin >= -1
  {
    RunBegins(e, TextSteps(c));
    match RunSteps(e, TextSteps(c))
    case None => None
    case Some(f) =>
      RunBegins(f, ListSteps(c));
      match RunSteps(f, ListSteps(c))
      case None => None
      case Some(g) => RunSteps(g, LastSteps(c, stamp, RawText(g, Upper("ORG"))))
  }

  lemma {:induction false} RunBegins(e: Edit, steps: seq<Step>)
    requires e.span.begin >= -1
    ensures RunSteps(e, steps).Some? ==> RunSteps(e, steps).value.span.begin == e.span.begin
    decreases |steps|
  {
    if steps != [] && StepEdit(e, steps[0]).Some? {
      RunBegins(StepEdit(e, steps[0]).value, steps[1..]);
    }
  }

  lemma {:induction false} RunStepsSplit(e: Edit, a: seq<Step>, b: seq<Step>)
    requires e.span.begin >= -1
    ensures RunSteps(e, a).Some? ==> RunSteps(e, a).value.span.begin >= -1
    ensures RunSteps(e, a + b) == match RunSteps(e, a) case Some(f) => RunSteps(f, b) case None => None
    decreases |a|
  {
    if a == [] {
      assert a + b == b;
    } else {
      assert (a + b)[1..] == a[1..] + b;
      if StepEdit(e, a[0]).Some? {
        RunStepsSplit(StepEdit(e, a[0]).value, a[1..], b);
      }
    }
  }

  lemma RunStepsEnd(e: Edit, a: seq<Step>, s: Step)
    requires e.span.begin >= -1 && RunSteps(e, a).Some?
    ensures RunSteps(e, a).value.span.begin >= -1
    ensures RunSteps(e, a + [s]) == StepEdit(RunSteps(e, a).value, s)
  {
    RunStepsSplit(e, a, [s]);
    OneStep(RunSteps(e, a).value, s);
  }

  method KeepNonEmpty(props: seq<Property>) returns (out: seq<Property>)
    ensures out == NonEmpty(props)
  {
    out := [];
    var i := 0;
    assert props[0..] == props;
    while i < |props|
      invariant 0 <= i <= |props|
      invariant out + NonEmpty(props[i..]) == NonEmpty(props)
    {
      assert props[i..][1..] == props[i + 1..];
      if Durations.TrimSpace(props[i].value) != "" {
        assert out + ([props[i]] + NonEmpty(props[i + 1..])) == (out + [props[i]]) + NonEmpty(props[i + 1..]);
        out := out + [props[i]];
      }
      i := i + 1;
    }
  }

  datatype Outcome = Done | Unnamed | OutOfRange

  // A contact with a name is written onto the card; one without is refused
  // before anything is touched.
  method Apply(card: Card, c: Contact, stamp: string) returns (r: Outcome)
    requires card.span.at.begin >= -1
    modifies card.doc, card.span
    ensures r == Unnamed <==>
              Durations.Blank(c.formattedName) && Durations.Blank(c.givenName) && Durations.Blank(c.familyName)
    ensures r == Unnamed ==> card.doc.lines == old(card.doc.lines) && card.span.at == old(card.span.at)
    ensures r != Unnamed ==>
              var f := AppliedContact(Edit(old(card.doc.lines), old(card.span.at)), c, stamp);
              (r == Done <==> f.Some?) && (r == Done ==> Edit(card.doc.lines, card.span.at) == f.value)
  {
    Durations.TrimSpaceExactly(c.formattedName);
    Durations.TrimSpaceExactly(c.givenName);
    Durations.TrimSpaceExactly(c.familyName);
    if !Named(c) {
      return Unnamed;
    }
    WriteTexts(card, c);
    var ok := WriteLists(card, c);
    if !ok {
      return OutOfRange;
    }
    WriteLast(card, c, stamp);
    return Done;
  }

  method WriteTexts(card: Card, c: Contact)
    requires card.span.at.begin >= -1
    modifies card.doc, card.span
    ensures card.span.at.begin >= -1
    ensures RunSteps(Edit(old(card.doc.lines), old(card.span.at)), TextSteps(c)) == Some(Edit(card.doc.lines, card.span.at))
  {
    ghost var e := Edit(card.doc.lines, card.span.at);
    ghost var steps := TextSteps(c);
    SetNext(card, "FN", DisplayName(c), e, steps, 0);
    SetRawNext(card, "N", StructuredName(c.familyName, c.givenName), e, steps, 1);
    SetNext(card, "TITLE", c.title, e, steps, 2);
    SetNext(card, "NOTE", c.note, e, steps, 3);
    SetNext(card, "URL", c.url, e, steps, 4);
    assert steps[..5] == steps;
  }

  // Writes one text, the next of some steps.
  method SetNext(card: Card, name: string, value: string, ghost e: Edit, ghost steps: seq<Step>, ghost i: nat)
    requires e.span.begin >= -1 && card.span.at.begin >= -1
    requires i < |steps| && steps[i] == One(name, Escape(value))
    requires RunSteps(e, steps[..i]) == Some(Edit(card.doc.lines, card.span.at))
    modifies card.doc, card.span
    ensures card.span.at.begin >= -1
    ensures RunSteps(e, steps[..i + 1]) == Some(Edit(card.doc.lines, card.span.at))
  {
    SetRawNext(card, name, Escape(value), e, steps, i);
  }

  method SetRawNext(card: Card, name: string, value: string, ghost e: Edit, ghost steps: seq<Step>, ghost i: nat)
    requires e.span.begin >= -1 && card.span.at.begin >= -1
    requires i < |steps| && steps[i] == One(name, value)
    requires RunSteps(e, steps[..i]) == Some(Edit(card.doc.lines, card.span.at))
    modifies card.doc, card.span
    ensures card.span.at.begin >= -1
    ensures RunSteps(e, steps[..i + 1]) == Some(Edit(card.doc.lines, card.span.at))
  {
    card.doc.SetRaw(card.span, name, value);
    NextStep(e, steps, i, Edit(card.doc.lines, card.span.at));
    RunBegins(e, steps[..i + 1]);
  }

  lemma NextStep(e: Edit, steps: seq<Step>, i: nat, f: Edit)
    requires e.span.begin >= -1 && i < |steps| && RunSteps(e, steps[..i]).Some?
    requires RunSteps(e, steps[..i]).value.span.begin >= -1
    requires StepEdit(RunSteps(e, steps[..i]).value, steps[i]) == Some(f)
    ensures RunSteps(e, steps[..i + 1]) == Some(f)
  {
    RunStepsEnd(e, steps[..i], steps[i]);
    TakeNextStep(steps, i);
  }

  lemma TakeNextStep(steps: seq<Step>, i: nat)
    requires i < |steps|
    ensures steps[..i + 1] == steps[..i] + [steps[i]]
  {
  }

  method WriteLists(card: Card, c: Contact) returns (ok: bool)
    requires card.span.at.begin >= -1
    modifies card.doc, card.span
    ensures var r := RunSteps(Edit(old(card.doc.lines), old(card.span.at)), ListSteps(c));
            ok == r.Some? && (ok ==> card.span.at.begin >= -1 && r == Some(Edit(card.doc.lines, card.span.at)))
  {
    ghost var e := Edit(card.doc.lines, card.span.at);
    var phones := KeepNonEmpty(c.phones);
    AllSetBegins(e, "TEL", phones);
    TwoSteps(e, All("TEL", phones), All("EMAIL", NonEmpty(c.emails)));
    ok := card.SetAll("TEL", phones);
    if !ok {
      return;
    }
    ghost var f := Edit(card.doc.lines, card.span.at);
    var emails := KeepNonEmpty(c.emails);
    AllSetBegins(f, "EMAIL", emails);
    ok := card.SetAll("EMAIL", emails);
  }

  lemma TwoSteps(e: Edit, a: Step, b: Step)
    requires e.span.begin >= -1
    ensures RunSteps(e, [a, b]) == match StepEdit(e, a) case Some(f) => StepEdit(f, b) case None => None
  {
    assert [a, b] == [a] + [b];
    RunStepsSplit(e, [a], [b]);
    OneStep(e, a);
    if StepEdit(e, a).Some? {
      OneStep(StepEdit(e, a).value, b);
    }
  }

  lemma OneStep(e: Edit, s: Step)
    requires e.span.begin >= -1
    ensures RunSteps(e, [s]) == StepEdit(e, s)
  {
    assert [s][1..] == [];
  }

  method WriteLast(card: Card, c: Contact, stamp: string)
    requires card.span.at.begin >= -1
    modifies card.doc, card.span
    ensures var e := Edit(old(card.doc.lines), old(card.span.at));
            RunSteps(e, LastSteps(c, stamp, RawText(e, Upper("ORG")))) == Some(Edit(card.doc.lines, card.span.at))
  {
    ghost var e := Edit(card.doc.lines, card.span.at);
    ghost var steps := LastSteps(c, stamp, RawText(e, Upper("ORG")));
    var found := card.doc.Find(card.span.at, "ORG");
    var current := "";
    if found.Some? {
      current := card.doc.lines[found.value].parts.value;
    }
    var value := OrganisationValue(c.organisation, current);
    SetRawNext(card, "ORG", value, e, steps, 0);
    SetNext(card, "REV", stamp, e, steps, 1);
    assert steps[..2] == steps;
  }

  // ------------------------------------------------------------- reading it back

  const CARD_NAMES := ["FN", "N", "TITLE", "NOTE", "URL", "TEL", "EMAIL", "ORG", "REV"]

  const CARD_SCOPE := {"FN", "N", "TITLE", "NOTE", "URL", "TEL", "EMAIL", "ORG", "REV"}

  lemma CardNames()
    ensures forall i | 0 <= i < 9 :: Upper(CARD_NAMES[i]) == CARD_NAMES[i] && CARD_NAMES[i] in CARD_SCOPE
    ensures forall i, j | 0 <= i < j < 9 :: CARD_NAMES[i] != CARD_NAMES[j]
  {
    forall i | 0 <= i < 9 ensures Upper(CARD_NAMES[i]) == CARD_NAMES[i] && CARD_NAMES[i] in CARD_SCOPE {
      if i == 0 {
      } else if i == 1 {
      } else if i == 2 {
      } else if i == 3 {
      } else if i == 4 {
      } else if i == 5 {
      } else if i == 6 {
      } else if i == 7 {
      } else {
        assert i == 8;
      }
    }
    forall i, j | 0 <= i < j < 9 ensures CARD_NAMES[i] != CARD_NAMES[j] {
      assert |CARD_NAMES[i]| != |CARD_NAMES[j]| || CARD_NAMES[i][0] != CARD_NAMES[j][0];
    }
  }

  function CardSteps(c: Contact, stamp: string, organisation: string): (steps: seq<Step>)
    ensures |steps| == 9 && forall i | 0 <= i < 9 :: steps[i].name == CARD_NAMES[i]
  {
    TextSteps(c) + (ListSteps(c) + LastSteps(c, stamp, organisation))
  }

  lemma StepsApart(c: Contact, stamp: string, organisation: string)
    ensures var steps := CardSteps(c, stamp, organisation);
            Apart(steps) && forall i | 0 <= i < 9 :: Upper(steps[i].name) == CARD_NAMES[i] && CARD_NAMES[i] in CARD_SCOPE
  {
    CardNames();
  }

  lemma RawIsFirst(e: Edit, name: string)
    requires InRange(e.lines, e.span)
    ensures RawText(e, name) == if Own(e, name) == [] then "" else Own(e, name)[0].parts.value
  {
    var body := Inside(e.lines, e.span);
    FindIsInside(e.lines, e.span, name);
    match FindInside(body, name, 0)
    case Some(k) =>
      NoneBefore(body, name, k);
      SelectUpdate(body, ByName(name), k, body[k], |body|);
      assert e.lines[e.span.begin + 1 + k] == body[k];
    case None =>
      NoneBefore(body, name, |body|);
  }

  // A card to which a contact can be applied property by property: its lines
  // of the nine names share no group, and what is removed stands so that it
  // can go. The scope covers all that goes.
  predicate CardReady(e: Edit, eol: string, scope: Scope, c: Contact, stamp: string) {
    Ready(e, eol, scope) && scope.names == CARD_SCOPE && CoversAll(e, scope, CardSteps(c, stamp, RawText(e, "ORG")))
  }

  // All groups of the nine names.
  function WholeScope(e: Edit): Scope
    requires InRange(e.lines, e.span)
  {
    Scope(CARD_SCOPE, set n, g | n in CARD_SCOPE && g in GroupsOf(Own(e, n)) :: g, {"TEL", "EMAIL"}, {})
  }

  // A card is ready for any contact when it nests nothing, no two lines of the
  // nine names share a group, and in a group with a number or an address no
  // line stands at or before an earlier number or address.
  lemma FlatCardIsReady(e: Edit, eol: string, c: Contact, stamp: string)
    requires Begins(e, eol) && Flat(Inside(e.lines, e.span)) && GroupsApart(e, CARD_SCOPE)
    requires var body := Inside(e.lines, e.span);
             forall k | 0 <= k < |body| && body[k].parts.name in {"TEL", "EMAIL"} && body[k].parts.group != "" ::
               Clear(body, body[k].parts.group, body[k].parts.name, k)
    ensures CardReady(e, eol, WholeScope(e), c, stamp)
  {
    FlatIsPrepared(e, eol, WholeScope(e));
    WholeCoversAll(e, c, stamp, CardSteps(c, stamp, RawText(e, "ORG")));
  }

  lemma FlatIsPrepared(e: Edit, eol: string, scope: Scope)
    requires Begins(e, eol) && Flat(Inside(e.lines, e.span)) && PlainNames(scope) && scope.spared == {}
    requires var body := Inside(e.lines, e.span);
             forall k | 0 <= k < |body| && body[k].parts.name in scope.heads && body[k].parts.group != "" ::
               Clear(body, body[k].parts.group, body[k].parts.name, k)
    ensures Prepared(e, eol, scope)
  {
    FlatIsOpen(Inside(e.lines, e.span), scope);
  }

  lemma WholeCoversAll(e: Edit, c: Contact, stamp: string, steps: seq<Step>)
    requires InRange(e.lines, e.span) && steps == CardSteps(c, stamp, RawText(e, "ORG"))
    ensures CoversAll(e, WholeScope(e), steps)
  {
    StepsApart(c, stamp, RawText(e, "ORG"));
    forall i | 0 <= i < 9 ensures Covers(e, WholeScope(e), steps[i]) {
      ListsAreHeads(c, stamp, RawText(e, "ORG"), i);
      WholeCovers(e, steps[i], CARD_NAMES[i]);
    }
  }

  lemma WholeCovers(e: Edit, s: Step, name: string)
    requires InRange(e.lines, e.span) && Upper(s.name) == name && name in CARD_SCOPE && (s.All? ==> name in {"TEL", "EMAIL"})
    ensures Covers(e, WholeScope(e), s)
  {
    GoesWithin(Own(e, name), s);
  }

  lemma FlatIsOpen(body: seq<Line>, scope: Scope)
    requires Flat(body) && PlainNames(scope) && scope.spared == {}
    requires forall k | 0 <= k < |body| && body[k].parts.name in scope.heads && body[k].parts.group != "" ::
               Clear(body, body[k].parts.group, body[k].parts.name, k)
    ensures Sound(body, scope)
  {
    forall k | 0 <= k <= |body| ensures Depth(body, 0, k) == 0 {
      FlatDepth(body, 0, k);
    }
  }

  lemma GoesWithin(own: seq<Line>, s: Step)
    ensures Goes(own, s) <= GroupsOf(own)
  {
    match s
    case One(_, value) => AlongIsTheirs(own, value);
    case All(_, values) => GoesAreTheirs(own, s);
  }

  lemma ListsAreHeads(c: Contact, stamp: string, organisation: string, i: nat)
    requires i < 9
    ensures CardSteps(c, stamp, organisation)[i].All? ==> CARD_NAMES[i] in {"TEL", "EMAIL"}
  {
  }

  lemma ContactIsRun(e: Edit, eol: string, scope: Scope, c: Contact, stamp: string)
    requires CardReady(e, eol, scope, c, stamp)
    ensures var steps := CardSteps(c, stamp, RawText(e, "ORG"));
            AppliedContact(e, c, stamp) == RunSteps(e, steps) && CoversAll(e, scope, steps + []) && Apart(steps + [])
  {
    var organisation := RawText(e, "ORG");
    var a, b, steps := TextSteps(c), ListSteps(c), CardSteps(c, stamp, organisation);
    StepsApart(c, stamp, organisation);
    assert Upper("ORG") == "ORG" by { CardNames(); assert CARD_NAMES[7] == "ORG"; }
    OrganisationUntouched(e, eol, scope, a, b, c, stamp, organisation);
    NothingMore(steps);
    RunStepsSplit(e, a, b + LastSteps(c, stamp, organisation));
    RunStepsSplit(RunSteps(e, a).value, b, LastSteps(c, stamp, organisation));
  }

  // Applying a contact is those nine steps. Everything else in the card keeps
  // its bytes, its order and its place, but for the lines in a group with one
  // that was removed; and the lines of each name that shares no group with the
  // nine are what its own step makes of them.
  lemma ContactApplied(e: Edit, eol: string, scope: Scope, c: Contact, stamp: string, name: string)
    requires CardReady(e, eol, scope, c, stamp) && UnsharedBy(e, CARD_SCOPE, name)
    ensures var r, steps := AppliedContact(e, c, stamp), CardSteps(c, stamp, RawText(e, "ORG"));
            r.Some? && Ready(r.value, eol, scope) && SameFrame(e, r.value, scope) &&
            Own(r.value, name) == Effects(Own(e, name), steps, name, eol)
  {
    ContactIsRun(e, eol, scope, c, stamp);
    RunStepsRead(e, eol, scope, CardSteps(c, stamp, RawText(e, "ORG")), [], name);
  }

  // The lines of a name that is none of the nine are as they were.
  lemma UnwrittenName(e: Edit, eol: string, scope: Scope, c: Contact, stamp: string, name: string, f: Edit)
    requires CardReady(e, eol, scope, c, stamp) && UnsharedBy(e, CARD_SCOPE, name) && name !in CARD_SCOPE
    requires AppliedContact(e, c, stamp) == Some(f)
    ensures InRange(f.lines, f.span) && Own(f, name) == Own(e, name)
  {
    var steps := CardSteps(c, stamp, RawText(e, "ORG"));
    ContactApplied(e, eol, scope, c, stamp, name);
    StepsNamed(c, stamp, RawText(e, "ORG"), name);
    NoEffect(Own(e, name), steps, name, eol);
  }

  lemma StepsNamed(c: Contact, stamp: string, organisation: string, name: string)
    requires name !in CARD_SCOPE
    ensures var steps := CardSteps(c, stamp, organisation); forall i | 0 <= i < |steps| :: Upper(steps[i].name) != name
  {
    StepsApart(c, stamp, organisation);
  }

  lemma NothingMore(steps: seq<Step>)
    ensures steps + [] == steps
  {
  }

  lemma OrganisationUntouched(e: Edit, eol: string, scope: Scope, a: seq<Step>, b: seq<Step>, c: Contact, stamp: string, organisation: string)
    requires CardReady(e, eol, scope, c, stamp) && organisation == RawText(e, "ORG")
    requires a == TextSteps(c) && b == ListSteps(c)
    ensures RunSteps(e, a).Some? && RunSteps(e, a).value.span.begin >= -1
    ensures var f := RunSteps(e, a).value;
            RunSteps(f, b).Some? && RunSteps(f, b).value.span.begin >= -1 && RawText(RunSteps(f, b).value, "ORG") == organisation
  {
    var steps, last := CardSteps(c, stamp, organisation), LastSteps(c, stamp, organisation);
    StepsApart(c, stamp, organisation);
    CardNames();
    assert CARD_NAMES[7] == "ORG";
    assert steps == a + (b + last);
    BehindApart(a, b + last);
    assert forall i | 0 <= i < |a| :: a[i] == steps[i];
    assert forall i | 0 <= i < |b| :: b[i] == steps[5 + i];
    RunStepsRead(e, eol, scope, a, b + last, "ORG");
    NoEffect(Own(e, "ORG"), a, "ORG", eol);
    var f := RunSteps(e, a).value;
    RunStepsRead(f, eol, scope, b, last, "ORG");
    NoEffect(Own(f, "ORG"), b, "ORG", eol);
    RawIsFirst(e, "ORG");
    RawIsFirst(RunSteps(f, b).value, "ORG");
  }

  lemma BehindApart(a: seq<Step>, b: seq<Step>)
    requires Apart(a + b)
    ensures Apart(b)
  {
    assert forall i | 0 <= i < |b| :: b[i] == (a + b)[|a| + i];
  }

  // The k-th name's lines are what the k-th step makes of them.
  lemma WrittenByItsStep(e: Edit, eol: string, scope: Scope, c: Contact, stamp: string, k: nat)
    requires CardReady(e, eol, scope, c, stamp) && k < 9
    ensures var r := AppliedContact(e, c, stamp);
            r.Some? && Ready(r.value, eol, scope) &&
            Own(r.value, CARD_NAMES[k]) ==
            StepLines(Own(e, CARD_NAMES[k]), CardSteps(c, stamp, RawText(e, "ORG"))[k], eol)
  {
    var steps := CardSteps(c, stamp, RawText(e, "ORG"));
    StepsApart(c, stamp, RawText(e, "ORG"));
    assert CARD_NAMES[k] in CARD_SCOPE && UnsharedBy(e, CARD_SCOPE, CARD_NAMES[k]);
    ContactApplied(e, eol, scope, c, stamp, CARD_NAMES[k]);
    EffectOfOne(Own(e, CARD_NAMES[k]), steps, k, eol);
  }

  function FirstRaw(lines: seq<Line>): string { if lines == [] then "" else lines[0].parts.value }

  // A raw value is found again if and only if it is not empty, or removing the
  // property leaves none behind that has one.
  lemma RawIsWritten(e: Edit, eol: string, scope: Scope, c: Contact, stamp: string, k: nat)
    requires CardReady(e, eol, scope, c, stamp) && k < 9 && k != 5 && k != 6
    ensures var r, step, own := AppliedContact(e, c, stamp), CardSteps(c, stamp, RawText(e, "ORG"))[k], Own(e, CARD_NAMES[k]);
            step.One? && r.Some? && r.value.span.begin >= -1 &&
            (RawText(r.value, CARD_NAMES[k]) == step.value <==> Clears(own, step.value))
  {
    WrittenByItsStep(e, eol, scope, c, stamp, k);
    TextStepAt(c, stamp, RawText(e, "ORG"), k);
    NameIsSingly(e, k);
    var r, step := AppliedContact(e, c, stamp), CardSteps(c, stamp, RawText(e, "ORG"))[k];
    RawAfterPut(r.value, CARD_NAMES[k], Own(e, CARD_NAMES[k]), step.name, step.value, eol);
  }

  lemma TextStepAt(c: Contact, stamp: string, organisation: string, k: nat)
    requires k < 9 && k != 5 && k != 6
    ensures CardSteps(c, stamp, organisation)[k].One?
  {
  }

  lemma NameIsSingly(e: Edit, k: nat)
    requires InRange(e.lines, e.span) && GroupsApart(e, CARD_SCOPE) && k < 9
    ensures Singly(Own(e, CARD_NAMES[k]))
  {
    CardNames();
    assert CARD_NAMES[k] in CARD_SCOPE && UnsharedBy(e, CARD_SCOPE, CARD_NAMES[k]) && Unshared(e, CARD_NAMES[k], CARD_NAMES[k]);
  }

  // Writing this text over these lines leaves no other one to be read.
  predicate Clears(own: seq<Line>, value: string) { value != "" || own == [] || FirstRaw(own[1..]) == "" }

  lemma RawAfterPut(f: Edit, name: string, own: seq<Line>, written: string, value: string, eol: string)
    requires InRange(f.lines, f.span) && Own(f, name) == PutLine(own, written, value, None, eol) && Singly(own)
    ensures RawText(f, name) == value <==> Clears(own, value)
  {
    RawIsFirst(f, name);
    FirstGoes(own, written, None, eol);
  }

  function Field(parts: seq<string>, k: nat): string { if k < |parts| then parts[k] else "" }

  // The contact a card holds. The name is split first and each part then
  // unescaped, so a semicolon inside a part stays there.
  function ReadContact(e: Edit): Contact
    requires InRange(e.lines, e.span)
  {
    var name := SplitStructured(RawText(e, "N"));
    Contact(Unescape(RawText(e, "FN")), Field(name, 0), Field(name, 1), FirstField(RawText(e, "ORG")),
            Unescape(RawText(e, "TITLE")), Unescape(RawText(e, "NOTE")),
            Shown(Own(e, "TEL")), Shown(Own(e, "EMAIL")), Unescape(RawText(e, "URL")))
  }

  // No text that is cleared leaves another one to be read.
  predicate TextsClear(e: Edit, c: Contact, stamp: string)
    requires InRange(e.lines, e.span)
  {
    forall k | 0 <= k < 9 && k != 5 && k != 6 :: TextClears(e, CardSteps(c, stamp, RawText(e, "ORG")), k)
  }

  predicate TextClears(e: Edit, steps: seq<Step>, k: nat)
    requires InRange(e.lines, e.span) && k < |steps| == 9
  {
    steps[k].One? ==> Clears(Own(e, CARD_NAMES[k]), steps[k].value)
  }

  predicate WithoutCR(c: Contact) {
    '\r' !in DisplayName(c) && '\r' !in c.familyName && '\r' !in c.givenName && '\r' !in c.organisation &&
    '\r' !in c.title && '\r' !in c.note && '\r' !in c.url
  }

  // What is read over the card there was: the texts are those asked for, and
  // of each number and address the value, and the type where the line showed
  // it if it had it.
  predicate ReadsAsContact(e: Edit, got: Contact, c: Contact)
    requires InRange(e.lines, e.span)
  {
    got.formattedName == DisplayName(c) && got.familyName == c.familyName && got.givenName == c.givenName &&
    got.organisation == c.organisation && got.title == c.title && got.note == c.note && got.url == c.url &&
    ReadsBack(Own(e, "TEL"), got.phones, NonEmpty(c.phones)) && ReadsBack(Own(e, "EMAIL"), got.emails, NonEmpty(c.emails))
  }

  // The contact as it is written: with a name to show, and without blank
  // numbers and addresses.
  function Normal(c: Contact): Contact {
    c.(formattedName := DisplayName(c), phones := NonEmpty(c.phones), emails := NonEmpty(c.emails))
  }

  // Every line that already has the type it is given shows that type.
  predicate AllShow(lines: seq<Line>, values: seq<Property>) {
    forall i | 0 <= i < |values| && i < |lines| :: Shows(lines[i], values[i].kind)
  }

  predicate AllAskable(values: seq<Property>) { forall i | 0 <= i < |values| :: Askable(values[i]) }

  // A contact applied to a card is the contact the card then holds, but for
  // the types of lines that have several.
  lemma ApplyThenRead(e: Edit, eol: string, scope: Scope, c: Contact, stamp: string)
    requires CardReady(e, eol, scope, c, stamp) && TextsClear(e, c, stamp) && WithoutCR(c)
    ensures var r := AppliedContact(e, c, stamp);
            r.Some? && Ready(r.value, eol, scope) && ReadsAsContact(e, ReadContact(r.value), c)
  {
    assert CARD_NAMES[0] in CARD_SCOPE;
    WrittenByItsStep(e, eol, scope, c, stamp, 0);
    var f := AppliedContact(e, c, stamp).value;
    TextsRead(e, eol, scope, c, stamp, f);
    NameAndOrganisationRead(e, eol, scope, c, stamp, f);
    ListsRead(e, eol, scope, c, stamp, f);
  }

  // So it is that contact to the letter if and only if no such line shows
  // another type than the one it is given.
  lemma ApplyThenReadExact(e: Edit, eol: string, scope: Scope, c: Contact, stamp: string)
    requires CardReady(e, eol, scope, c, stamp) && TextsClear(e, c, stamp) && WithoutCR(c)
    requires AllAskable(NonEmpty(c.phones)) && AllAskable(NonEmpty(c.emails))
    ensures var r := AppliedContact(e, c, stamp);
            r.Some? && InRange(r.value.lines, r.value.span) &&
            (ReadContact(r.value) == Normal(c) <==>
             AllShow(Own(e, "TEL"), NonEmpty(c.phones)) && AllShow(Own(e, "EMAIL"), NonEmpty(c.emails)))
  {
    ApplyThenRead(e, eol, scope, c, stamp);
    var got := ReadContact(AppliedContact(e, c, stamp).value);
    ReadsBackExact(Own(e, "TEL"), got.phones, NonEmpty(c.phones));
    ReadsBackExact(Own(e, "EMAIL"), got.emails, NonEmpty(c.emails));
  }

  lemma RawNow(e: Edit, eol: string, scope: Scope, c: Contact, stamp: string, k: nat, f: Edit)
    requires CardReady(e, eol, scope, c, stamp) && TextsClear(e, c, stamp) && k < 9 && k != 5 && k != 6
    requires AppliedContact(e, c, stamp) == Some(f) && InRange(f.lines, f.span)
    ensures var step := CardSteps(c, stamp, RawText(e, "ORG"))[k];
            step.One? && RawText(f, CARD_NAMES[k]) == step.value
  {
    RawIsWritten(e, eol, scope, c, stamp, k);
    assert TextClears(e, CardSteps(c, stamp, RawText(e, "ORG")), k);
  }

  // The value each name then has. A text that is given is escaped whole, and
  // the two parts of a name each on its own.
  lemma ContactIsWritten(e: Edit, eol: string, scope: Scope, c: Contact, stamp: string, f: Edit)
    requires CardReady(e, eol, scope, c, stamp) && TextsClear(e, c, stamp)
    requires AppliedContact(e, c, stamp) == Some(f) && InRange(f.lines, f.span)
    ensures RawText(f, "N") ==
            if c.familyName == "" && c.givenName == "" then "" else Escape(c.familyName) + ";" + Escape(c.givenName) + ";;;"
    ensures RawText(f, "TITLE") == Escape(c.title) && RawText(f, "NOTE") == Escape(c.note)
    ensures RawText(f, "URL") == Escape(c.url) && RawText(f, "REV") == Escape(stamp)
  {
    RawNow(e, eol, scope, c, stamp, 1, f);
    RawNow(e, eol, scope, c, stamp, 2, f);
    RawNow(e, eol, scope, c, stamp, 3, f);
    RawNow(e, eol, scope, c, stamp, 4, f);
    RawNow(e, eol, scope, c, stamp, 8, f);
  }

  // The name to show: the formatted one, and without it the given name, a
  // space and the family name.
  lemma ShownNameIsWritten(e: Edit, eol: string, scope: Scope, c: Contact, stamp: string, f: Edit)
    requires CardReady(e, eol, scope, c, stamp) && TextsClear(e, c, stamp)
    requires AppliedContact(e, c, stamp) == Some(f) && InRange(f.lines, f.span)
    ensures c.formattedName != "" ==> RawText(f, "FN") == Escape(c.formattedName)
    ensures c.formattedName == "" && Stands(c.givenName) && Stands(c.familyName) ==>
              RawText(f, "FN") == Escape(if c.givenName == "" then c.familyName
                                         else if c.familyName == "" then c.givenName
                                         else c.givenName + " " + c.familyName)
  {
    RawNow(e, eol, scope, c, stamp, 0, f);
    if c.formattedName == "" && Stands(c.givenName) && Stands(c.familyName) {
      CalledByBoth(c);
    }
  }

  lemma TextsRead(e: Edit, eol: string, scope: Scope, c: Contact, stamp: string, f: Edit)
    requires CardReady(e, eol, scope, c, stamp) && TextsClear(e, c, stamp) && WithoutCR(c)
    requires AppliedContact(e, c, stamp) == Some(f) && InRange(f.lines, f.span)
    ensures Unescape(RawText(f, "FN")) == DisplayName(c) && Unescape(RawText(f, "TITLE")) == c.title
    ensures Unescape(RawText(f, "NOTE")) == c.note && Unescape(RawText(f, "URL")) == c.url
  {
    RawNow(e, eol, scope, c, stamp, 0, f);
    RawNow(e, eol, scope, c, stamp, 2, f);
    RawNow(e, eol, scope, c, stamp, 3, f);
    RawNow(e, eol, scope, c, stamp, 4, f);
    UnescapeEscape(DisplayName(c));
    UnescapeEscape(c.title);
    UnescapeEscape(c.note);
    UnescapeEscape(c.url);
  }

  lemma NameAndOrganisationRead(e: Edit, eol: string, scope: Scope, c: Contact, stamp: string, f: Edit)
    requires CardReady(e, eol, scope, c, stamp) && TextsClear(e, c, stamp) && WithoutCR(c)
    requires AppliedContact(e, c, stamp) == Some(f) && InRange(f.lines, f.span)
    ensures var name := SplitStructured(RawText(f, "N"));
            Field(name, 0) == c.familyName && Field(name, 1) == c.givenName
    ensures FirstField(RawText(f, "ORG")) == c.organisation
  {
    RawNow(e, eol, scope, c, stamp, 1, f);
    RawNow(e, eol, scope, c, stamp, 7, f);
    NameFields(c.familyName, c.givenName);
    FirstOrganisation(c.organisation, RawText(e, "ORG"));
  }

  lemma NameFields(family: string, given: string)
    requires '\r' !in family && '\r' !in given
    ensures var name := SplitStructured(StructuredName(family, given)); Field(name, 0) == family && Field(name, 1) == given
  {
    if family != "" || given != "" {
      NameReads(family, given);
    }
  }

  lemma FirstOrganisation(organisation: string, current: string)
    requires '\r' !in organisation
    ensures FirstField(OrganisationText(organisation, current)) == organisation
  {
    if organisation != "" {
      var parts := [organisation] + SplitStructured(current)[1..];
      SplitJoin(parts);
      assert parts[0] == organisation;
    }
  }

  lemma ListsRead(e: Edit, eol: string, scope: Scope, c: Contact, stamp: string, f: Edit)
    requires CardReady(e, eol, scope, c, stamp) && AppliedContact(e, c, stamp) == Some(f) && InRange(f.lines, f.span)
    ensures ReadsBack(Own(e, "TEL"), Shown(Own(f, "TEL")), NonEmpty(c.phones))
    ensures ReadsBack(Own(e, "EMAIL"), Shown(Own(f, "EMAIL")), NonEmpty(c.emails))
  {
    ListRead(e, eol, scope, c, stamp, f, 5, NonEmpty(c.phones));
    ListRead(e, eol, scope, c, stamp, f, 6, NonEmpty(c.emails));
  }

  lemma ListRead(e: Edit, eol: string, scope: Scope, c: Contact, stamp: string, f: Edit, k: nat, values: seq<Property>)
    requires CardReady(e, eol, scope, c, stamp) && AppliedContact(e, c, stamp) == Some(f) && InRange(f.lines, f.span)
    requires k < 9 && CardSteps(c, stamp, RawText(e, "ORG"))[k] == All(CARD_NAMES[k], values)
    ensures ReadsBack(Own(e, CARD_NAMES[k]), Shown(Own(f, CARD_NAMES[k])), values)
  {
    WrittenByItsStep(e, eol, scope, c, stamp, k);
    WantedHolds(Own(e, CARD_NAMES[k]), CARD_NAMES[k], values, eol);
  }
}
