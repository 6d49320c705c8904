// The parameters of a content line. internal/contentline/lines.go:152-166
module Params {
  import opened Text

  // The pieces between the separators.
  function Split(s: string, c: char): (parts: seq<string>)
    ensures parts != []
    ensures forall p | p in parts :: c !in p && forall x | x in p :: x in s
    decreases |s|
  {
    var i := IndexOf(s, c);
    if i == |s| then [s] else [s[..i]] + Split(s[i + 1..], c)
  }

  function TrimLeft(s: string, c: char): (r: string)
    ensures r != "" ==> r[0] != c
    ensures forall x | x in r :: x in s
    decreases |s|
  {
    if s != "" && s[0] == c then TrimLeft(s[1..], c) else s
  }

  function TrimRight(s: string, c: char): (r: string)
    ensures |r| <= |s| && (r != "" ==> r[0] == s[0] && r[|r| - 1] != c)
    ensures forall x | x in r :: x in s
    decreases |s|
  {
    if s != "" && s[|s| - 1] == c then TrimRight(s[..|s| - 1], c) else s
  }

  function Unquoted(s: string): string { TrimRight(TrimLeft(s, '"'), '"') }

  function UnquotedAll(values: seq<string>): seq<string> {
    if values == [] then [] else [Unquoted(values[0])] + UnquotedAll(values[1..])
  }

  // What one parameter contributes to the values of a name.
  function PartValues(part: string, name: string): seq<string> {
    var i := IndexOf(part, '=');
    if i == |part| || !EqualFold(part[..i], name) then [] else UnquotedAll(Split(part[i + 1..], ','))
  }

  function AllValues(parts: seq<string>, name: string): seq<string> {
    if parts == [] then [] else PartValues(parts[0], name) + AllValues(parts[1..], name)
  }

  function Parameters(params: string): seq<string> {
    Split(if params != "" && params[0] == ';' then params[1..] else params, ';')
  }

  // Every value of every parameter of this name.
  function ParamValues(params: string, name: string): seq<string> {
    AllValues(Parameters(params), name)
  }

  method ReadParams(params: string, name: string) returns (out: seq<string>)
    ensures out == ParamValues(params, name)
  {
    out := [];
    var parts := Parameters(params);
    var i := 0;
    assert parts[0..] == parts;
    while i < |parts|
      invariant 0 <= i <= |parts|
      invariant out + AllValues(parts[i..], name) == ParamValues(params, name)
    {
      assert parts[i..][1..] == parts[i + 1..];
      var values := PartValues(parts[i], name);
      RegroupValues(out, values, AllValues(parts[i + 1..], name));
      out := out + values;
      i := i + 1;
    }
  }

  lemma RegroupValues(a: seq<string>, b: seq<string>, c: seq<string>)
    ensures a + (b + c) == (a + b) + c
  {
  }

  // A value that a parameter can hold as it stands.
  predicate Clean(v: string) {
    ';' !in v && ',' !in v && (v != "" ==> v[0] != '"' && v[|v| - 1] != '"')
  }

  lemma {:induction false} UnquotedAreClean(values: seq<string>)
    requires forall v | v in values :: ';' !in v && ',' !in v
    ensures forall v | v in UnquotedAll(values) :: Clean(v)
  {
    if values != [] {
      assert values[0] in values;
      UnquotedAreClean(values[1..]);
    }
  }

  lemma {:induction false} ValuesAreClean(parts: seq<string>, name: string)
    requires forall p | p in parts :: ';' !in p
    ensures forall v | v in AllValues(parts, name) :: Clean(v)
  {
    if parts != [] {
      var part := parts[0];
      var i := IndexOf(part, '=');
      assert part in parts;
      if i < |part| {
        var value := part[i + 1..];
        assert forall x | x in value :: x in part;
        UnquotedAreClean(Split(value, ','));
      }
      ValuesAreClean(parts[1..], name);
    }
  }

  lemma CleanIgnoresCase(a: string, b: string)
    requires EqualFold(a, b) && Clean(a)
    ensures Clean(b)
  {
    assert forall i | 0 <= i < |b| :: Upper(a)[i] == UpperChar(b[i]) && UpperChar(a[i]) == UpperChar(b[i]);
    assert forall i | 0 <= i < |b| :: b[i] in {';', ',', '"'} ==> a[i] == b[i];
    assert forall i | 0 <= i < |b| :: a[i] in a;
  }

  lemma NoSeparator(s: string, c: char)
    requires c !in s
    ensures Split(s, c) == [s]
  {
    assert forall k | 0 <= k < |s| :: s[k] in s;
  }

  // One parameter alone has the values behind its name.
  lemma OneParameter(name: string, rest: string)
    requires ';' !in name && '=' !in name && ';' !in rest
    ensures ParamValues(";" + name + "=" + rest, name) == UnquotedAll(Split(rest, ','))
  {
    var part := name + ("=" + rest);
    PartAlone(name, rest);
    OnePart(part, name);
    FirstOccurrence(name, rest, '=');
  }

  lemma PartAlone(name: string, rest: string)
    requires ';' !in name && ';' !in rest
    ensures Parameters(";" + name + "=" + rest) == [name + ("=" + rest)]
  {
    assert (";" + name + "=" + rest)[1..] == name + ("=" + rest);
    NoSeparator(name + ("=" + rest), ';');
  }

  // A single clean value reads back as it was written.
  lemma SingleValue(name: string, v: string)
    requires Clean(v) && ';' !in name && '=' !in name
    ensures ParamValues(";" + name + "=" + v, name) == [v]
  {
    OneParameter(name, v);
    NoSeparator(v, ',');
    assert Unquoted(v) == v && UnquotedAll([v]) == [v];
  }

  // Two of them read back in order.
  lemma TwoValues(name: string, v: string, w: string)
    requires Clean(v) && Clean(w) && ';' !in name && '=' !in name
    ensures ParamValues(";" + name + "=" + (v + ("," + w)), name) == [v, w]
  {
    OneParameter(name, v + ("," + w));
    SplitTwo(v, w);
    UnquotedTwo(v, w);
  }

  lemma UnquotedTwo(v: string, w: string)
    requires Clean(v) && Clean(w)
    ensures UnquotedAll([v, w]) == [v, w]
  {
    assert Unquoted(v) == v && Unquoted(w) == w;
    assert [v, w][1..] == [w] && [w][1..] == [];
    assert UnquotedAll([w]) == [w];
  }

  lemma SplitTwo(v: string, w: string)
    requires ',' !in v && ',' !in w
    ensures Split(v + ("," + w), ',') == [v, w] && [v, w][1..] == [w] && [w][1..] == []
  {
    FirstOccurrence(v, w, ',');
    NoSeparator(w, ',');
  }

  lemma FirstOccurrence(a: string, b: string, c: char)
    requires c !in a
    ensures var s := a + ([c] + b); IndexOf(s, c) == |a| && s[..|a|] == a && s[|a| + 1..] == b
  {
    var s := a + ([c] + b);
    assert s[|a|] == c;
    assert forall k | 0 <= k < |a| :: s[k] in a;
  }

  // ------------------------------------------------------------ whole lists

  // A value as it stands in a parameter: bare, or between quotation marks.
  datatype ValueForm = ValueForm(text: string, quoted: bool)

  // A parameter with its values, or none when it is a bare word.
  datatype Parameter = Parameter(key: string, values: seq<ValueForm>)

  function ValueText(v: ValueForm): string { if v.quoted then "\"" + v.text + "\"" else v.text }

  function ListText(values: seq<ValueForm>): string
    requires values != []
  {
    if |values| == 1 then ValueText(values[0]) else ValueText(values[0]) + ("," + ListText(values[1..]))
  }

  function ParameterText(p: Parameter): string { if p.values == [] then p.key else p.key + ("=" + ListText(p.values)) }

  // Parameters as a line carries them, each behind a semicolon.
  function AllText(ps: seq<Parameter>): string {
    if ps == [] then "" else ";" + ParameterText(ps[0]) + AllText(ps[1..])
  }

  function Texts(values: seq<ValueForm>): seq<string> {
    if values == [] then [] else [values[0].text] + Texts(values[1..])
  }

  // The values under a name, in order: those of every parameter whose key is
  // that name in any case.
  function TextsOf(ps: seq<Parameter>, name: string): seq<string> {
    if ps == [] then []
    else (if Upper(ps[0].key) == Upper(name) then Texts(ps[0].values) else []) + TextsOf(ps[1..], name)
  }

  predicate PlainParameter(p: Parameter) {
    ';' !in p.key && '=' !in p.key && forall i | 0 <= i < |p.values| :: Clean(p.values[i].text)
  }

  lemma {:induction false} TrimLeftMarks(v: string, t: string)
    requires v == "" || v[0] != '"'
    ensures TrimLeft(v, '"') == v && TrimLeft("\"" + v, '"') == v
  {
    assert ("\"" + v)[1..] == v;
  }

  lemma TrimRightMark(v: string)
    requires v == "" || v[|v| - 1] != '"'
    ensures TrimRight(v, '"') == v && TrimRight(v + "\"", '"') == v
  {
    assert (v + "\"")[..|v|] == v;
  }

  // Quotation marks around a value are taken off it.
  lemma UnquotedText(v: ValueForm)
    requires Clean(v.text)
    ensures Unquoted(ValueText(v)) == v.text
  {
    TrimRightMark(v.text);
    TrimLeftMarks(v.text, "");
    if v.quoted {
      var rest := v.text + "\"";
      assert ValueText(v) == "\"" + rest && ValueText(v)[1..] == rest;
      if v.text == "" {
        assert rest == "\"" && rest[1..] == "";
        assert TrimLeft(ValueText(v), '"') == "";
      } else {
        assert TrimLeft(rest, '"') == rest;
      }
    }
  }

  lemma ValueTextPlain(v: ValueForm)
    requires Clean(v.text)
    ensures ',' !in ValueText(v) && ';' !in ValueText(v)
  {
  }

  lemma {:induction false} ListReads(values: seq<ValueForm>)
    requires values != [] && forall i | 0 <= i < |values| :: Clean(values[i].text)
    ensures UnquotedAll(Split(ListText(values), ',')) == Texts(values)
    ensures ';' !in ListText(values)
  {
    var first := ValueText(values[0]);
    ValueTextPlain(values[0]);
    UnquotedText(values[0]);
    if |values| == 1 {
      NoSeparator(first, ',');
      OneUnquoted(first);
      assert values[1..] == [];
    } else {
      ListReads(values[1..]);
      SplitFirst(first, ListText(values[1..]), ',');
      UnquotedFirst(first, Split(ListText(values[1..]), ','));
    }
  }

  lemma SplitFirst(first: string, rest: string, c: char)
    requires c !in first
    ensures Split(first + ([c] + rest), c) == [first] + Split(rest, c)
  {
    FirstOccurrence(first, rest, c);
  }

  lemma UnquotedFirst(first: string, more: seq<string>)
    ensures UnquotedAll([first] + more) == [Unquoted(first)] + UnquotedAll(more)
  {
    assert ([first] + more)[1..] == more;
  }

  lemma ValuesFirst(first: string, more: seq<string>, name: string)
    ensures AllValues([first] + more, name) == PartValues(first, name) + AllValues(more, name)
  {
    assert ([first] + more)[1..] == more;
  }

  lemma OneUnquoted(s: string)
    ensures UnquotedAll([s]) == [Unquoted(s)]
  {
    assert [s][1..] == [];
  }

  // One parameter read under a name.
  lemma ParameterReads(p: Parameter, name: string)
    requires PlainParameter(p)
    ensures PartValues(ParameterText(p), name) == if Upper(p.key) == Upper(name) then Texts(p.values) else []
    ensures ';' !in ParameterText(p)
  {
    if p.values == [] {
      NoMark(p.key, '=');
    } else {
      ListReads(p.values);
      FirstOccurrence(p.key, ListText(p.values), '=');
    }
  }

  lemma NoMark(s: string, c: char)
    requires c !in s
    ensures IndexOf(s, c) == |s|
  {
    assert forall k | 0 <= k < |s| :: s[k] in s;
  }

  lemma {:induction false} PartsRead(ps: seq<Parameter>, name: string)
    requires ps != [] && forall i | 0 <= i < |ps| :: PlainParameter(ps[i])
    ensures AllText(ps) != "" && AllText(ps)[0] == ';'
    ensures AllValues(Split(AllText(ps)[1..], ';'), name) == TextsOf(ps, name)
  {
    var first, rest := ParameterText(ps[0]), AllText(ps[1..]);
    ParameterReads(ps[0], name);
    Behind(first, rest);
    if |ps| == 1 {
      assert ps[1..] == [] && first + rest == first;
      NoSeparator(first, ';');
      OnePart(first, name);
    } else {
      PartsRead(ps[1..], name);
      assert rest == [';'] + rest[1..];
      SplitFirst(first, rest[1..], ';');
      ValuesFirst(first, Split(rest[1..], ';'), name);
    }
  }

  lemma Behind(first: string, rest: string)
    ensures (";" + first + rest)[0] == ';' && (";" + first + rest)[1..] == first + rest
  {
  }

  lemma OnePart(part: string, name: string)
    ensures AllValues([part], name) == PartValues(part, name)
  {
    assert [part][1..] == [] && PartValues(part, name) + [] == PartValues(part, name);
  }

  lemma FirstParameter(p: Parameter, rest: seq<Parameter>, name: string)
    ensures var ps := [p] + rest;
            AllText(ps) == ";" + ParameterText(p) + AllText(rest) &&
            TextsOf(ps, name) == (if Upper(p.key) == Upper(name) then Texts(p.values) else []) + TextsOf(rest, name)
  {
    assert ([p] + rest)[1..] == rest;
  }

  // Reading a list of parameters: the values of exactly those that carry the
  // name, whatever its case, in order and without their quotation marks.
  lemma ReadsAll(ps: seq<Parameter>, name: string)
    requires forall i | 0 <= i < |ps| :: PlainParameter(ps[i])
    ensures ParamValues(AllText(ps), name) == TextsOf(ps, name)
  {
    if ps == [] {
      NoSeparator("", ';');
      OnePart("", name);
    } else {
      PartsRead(ps, name);
    }
  }
}
