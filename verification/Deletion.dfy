// The loop that takes a name's lines away one after another.
// internal/contentline/contentline.go:298-308
module Deletion {
  import opened Text
  import opened Documents
  import opened Edits
  import opened Frame
  import opened Properties

  // A group's removal takes at least its first line that belongs to the
  // component: up to there nothing has moved, and what is read is what was.
  lemma {:induction false} FirstOfGroupGoes(lines: seq<Line>, span: Span, group: string, i: nat, j: nat)
    requires span.begin >= -1 && i < |lines| && j <= |lines|
    requires lines[i].parts.group == group && Contains(lines, span, i)
    ensures var kept := Compacted(lines, span, group, j); |kept| < j || (j <= i && kept == lines[..j])
  {
    if j > 0 {
      FirstOfGroupGoes(lines, span, group, i, j - 1);
      FrontAndRest(lines, j - 1);
    }
  }

  lemma FrontAndRest(lines: seq<Line>, j: nat)
    requires j < |lines|
    ensures lines[..j] + lines[j..] == lines && lines[..j] + [lines[j]] == lines[..j + 1]
  {
  }

  lemma RemovalShortens(lines: seq<Line>, span: Span, i: nat)
    requires span.begin >= -1 && i < |lines| && Contains(lines, span, i)
    ensures |RemoveLine(lines, span, i).lines| < |lines|
  {
    FirstOfGroupGoes(lines, span, lines[i].parts.group, i, |lines|);
  }

  // The component is orderly, and the groups of this name's lines are in scope.
  predicate Deletable(e: Edit, scope: Scope, name: string) {
    Opened(e, scope) && Ordered(e, scope) && Upper(name) in scope.names &&
    GroupsOf(LinesOf(Inside(e.lines, e.span), Upper(name))) <= scope.groups
  }

  lemma RemovalKeeps(e: Edit, scope: Scope, name: string, i: nat)
    requires Deletable(e, scope, name) && FindFirst(e.lines, e.span, Upper(name)) == Some(i)
    ensures var f := RemoveLine(e.lines, e.span, i); Deletable(f, scope, name) && SameFrame(e, f, scope)
  {
    var body, own := Inside(e.lines, e.span), LinesOf(Inside(e.lines, e.span), Upper(name));
    var op := Put(name, "", None);
    AlongIsTheirs(own, "");
    TiedCanPut(body, scope, name, "");
    ApplyKeeps(e, op, scope);
    SetIsInside(e.lines, e.span, name, "", None);
    ExchangeFrames(e, SetInside(body, name, "", None, FirstEol(e.lines)));
    PutThinsEach(body, scope, op, FirstEol(e.lines), Upper(name));
  }

  lemma FrameOnward(e: Edit, f: Edit, g: Edit, scope: Scope)
    requires SameFrame(e, f, scope) && SameFrame(f, g, scope)
    ensures SameFrame(e, g, scope)
  {
  }

  // The loop ends, whatever groups and nesting there are: each round takes a
  // line at least. Then no line of the name is left in the component, and
  // where its groups are in scope all other lines are as they were.
  method Delete(doc: Document, span: SpanVar, name: string, ghost scope: Scope)
    requires span.at.begin >= -1
    modifies doc, span
    ensures span.at.begin == old(span.at.begin)
    ensures forall k | 0 <= k < |doc.lines| :: !(doc.lines[k].parts.name == Upper(name) && Contains(doc.lines, span.at, k))
    ensures Deletable(Edit(old(doc.lines), old(span.at)), scope, name) ==>
              Deletable(Edit(doc.lines, span.at), scope, name) &&
              SameFrame(Edit(old(doc.lines), old(span.at)), Edit(doc.lines, span.at), scope)
  {
    ghost var was := Edit(doc.lines, span.at);
    ghost var scoped := Deletable(was, scope, name);
    UpperTwice(name);
    while true
      invariant span.at.begin == was.span.begin
      invariant scoped ==> Deletable(Edit(doc.lines, span.at), scope, name) && SameFrame(was, Edit(doc.lines, span.at), scope)
      decreases |doc.lines|
    {
      ghost var e := Edit(doc.lines, span.at);
      var found := doc.Find(span.at, Upper(name));
      if found.None? {
        return;
      }
      RemovalShortens(doc.lines, span.at, found.value);
      if scoped {
        RemovalKeeps(e, scope, name, found.value);
      }
      doc.Remove(span, found.value);
      if scoped {
        FrameOnward(was, e, Edit(doc.lines, span.at), scope);
      }
    }
  }
}
