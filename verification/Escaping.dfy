// Escaped values and structured values. internal/contentline/lines.go
module Escaping {
  import opened Text

  function EscapeChar(c: char): string {
    match c
    case '\\' => "\\\\"
    case '\n' => "\\n"
    case '\r' => ""
    case ',' => "\\,"
    case ';' => "\\;"
    case _ => [c]
  }

  function Escape(s: string): string {
    if s == "" then "" else EscapeChar(s[0]) + Escape(s[1..])
  }

  // What an escaped octet stands for.
  function Plain(c: char): char { if c == 'n' || c == 'N' then '\n' else c }

  function Unescape(s: string): string {
    if s == "" then ""
    else if s[0] != '\\' || |s| == 1 then [s[0]] + Unescape(s[1..])
    else [Plain(s[1])] + Unescape(s[2..])
  }

  method UnescapeValue(s: string) returns (r: string)
    ensures r == Unescape(s)
  {
    UnescapePlain(s);
    if '\\' !in s {
      return s;
    }
    r := "";
    var i := 0;
    while i < |s|
      invariant 0 <= i <= |s|
      invariant r + Unescape(s[i..]) == Unescape(s)
    {
      Suffixes(s, i);
      if s[i] != '\\' || i + 1 >= |s| {
        Regroup(r, s[i], Unescape(s[i + 1..]));
        r := r + [s[i]];
      } else {
        i := i + 1;
        Regroup(r, Plain(s[i]), Unescape(s[i + 1..]));
        if s[i] == 'n' || s[i] == 'N' {
          r := r + ['\n'];
        } else {
          r := r + [s[i]];
        }
      }
      i := i + 1;
    }
  }

  lemma Suffixes(s: string, i: nat)
    requires i < |s|
    ensures s[i..][0] == s[i] && s[i..][1..] == s[i + 1..]
    ensures i + 1 < |s| ==> s[i..][1] == s[i + 1] && s[i..][2..] == s[i + 2..]
  {
  }

  lemma Regroup(a: string, c: char, b: string)
    ensures a + ([c] + b) == (a + [c]) + b
  {
  }

  lemma {:induction false} UnescapePlain(s: string)
    ensures '\\' !in s ==> Unescape(s) == s
  {
    if s != "" {
      UnescapePlain(s[1..]);
    }
  }

  // Escaping loses carriage returns and nothing else.
  lemma {:induction false} UnescapeEscape(s: string)
    ensures Unescape(Escape(s)) == StripCR(s)
  {
    if s != "" {
      UnescapeEscape(s[1..]);
      UnescapeOne(s[0], Escape(s[1..]));
    }
  }

  lemma UnescapeOne(c: char, t: string)
    ensures Unescape(EscapeChar(c) + t) == (if c == '\r' then "" else [c]) + Unescape(t)
  {
    var e := EscapeChar(c) + t;
    if c == '\r' {
      assert e == t;
    } else if |EscapeChar(c)| == 2 {
      assert e[2..] == t;
    } else {
      assert e[1..] == t;
    }
  }

  // An escaped value never carries a line break, so writing it cannot break
  // the object into extra lines, and no separator of its own.
  lemma {:induction false} EscapeHasNoBreak(s: string)
    ensures BreakFree(Escape(s))
    ensures s != "" && s[0] != '\r' ==> Escape(s) != ""
  {
    if s != "" {
      EscapeHasNoBreak(s[1..]);
    }
  }

  // An octet is escaped by itself, wherever it stands.
  lemma {:induction false} EscapedAs(a: string, c: char, b: string)
    ensures Escape(a + ([c] + b)) ==
            Escape(a) + ((if c == '\\' then "\\\\"
                          else if c == ',' then "\\,"
                          else if c == ';' then "\\;"
                          else if c == '\n' then "\\n"
                          else if c == '\r' then ""
                          else [c]) + Escape(b))
    ensures Escape("") == ""
    decreases |a|
  {
    var s := a + ([c] + b);
    if a == "" {
      assert s[1..] == b && "" + (EscapeChar(c) + Escape(b)) == EscapeChar(c) + Escape(b);
    } else {
      assert s[1..] == a[1..] + ([c] + b);
      EscapedAs(a[1..], c, b);
      RegroupText(EscapeChar(a[0]), Escape(a[1..]), EscapeChar(c) + Escape(b));
    }
  }

  // How a text is spelled: octets that stand for themselves, and those behind
  // a backslash.
  datatype Mark = Bare(c: char) | Behind(c: char)

  predicate IsSpelling(ms: seq<Mark>) { forall m | m in ms && m.Bare? :: m.c != '\\' }

  function Spelled(ms: seq<Mark>): string {
    if ms == [] then "" else (if ms[0].Bare? then [ms[0].c] else ['\\', ms[0].c]) + Spelled(ms[1..])
  }

  // What they mean: behind a backslash an n in either case is a line feed, and
  // anything else is itself.
  function Meaning(ms: seq<Mark>): string {
    if ms == [] then "" else [if ms[0].Behind? && ms[0].c in {'n', 'N'} then '\n' else ms[0].c] + Meaning(ms[1..])
  }

  // A backslash that ends the text is one.
  predicate Ending(s: string) { s == "" || s == "\\" }

  // Reading any spelling gives its meaning.
  lemma {:induction false} UnescapeReads(ms: seq<Mark>, end: string)
    requires IsSpelling(ms) && Ending(end)
    ensures Unescape(Spelled(ms) + end) == Meaning(ms) + end
    decreases |ms|
  {
    if ms == [] {
      assert Spelled(ms) + end == end;
      assert end != "" ==> end[1..] == "";
      assert Meaning(ms) + end == end;
    } else {
      assert ms[0] in ms;
      UnescapeReads(ms[1..], end);
      MarkFirst(ms, end);
    }
  }

  // Every text has one.
  lemma {:induction false} EveryTextIsSpelled(s: string) returns (ms: seq<Mark>, end: string)
    ensures IsSpelling(ms) && Ending(end) && s == Spelled(ms) + end
    decreases |s|
  {
    if s == "" || s == "\\" {
      ms, end := [], s;
    } else {
      var n := if s[0] == '\\' then 2 else 1;
      var m := if s[0] == '\\' then Behind(s[1]) else Bare(s[0]);
      ms, end := EveryTextIsSpelled(s[n..]);
      FirstOf(s, n);
      assert ([m] + ms)[1..] == ms;
      ms := [m] + ms;
      MarkFirst(ms, end);
    }
  }

  lemma FirstOf(s: string, n: nat)
    requires |s| >= n && (n == 1 || n == 2)
    ensures s == (if n == 1 then [s[0]] else [s[0], s[1]]) + s[n..]
  {
  }

  lemma MarkFirst(ms: seq<Mark>, end: string)
    requires ms != []
    ensures var s := Spelled(ms) + end;
            s != "" && s[0] == (if ms[0].Bare? then ms[0].c else '\\') &&
            if ms[0].Bare? then s[1..] == Spelled(ms[1..]) + end
            else |s| > 1 && s[1] == ms[0].c && s[2..] == Spelled(ms[1..]) + end
    ensures Meaning(ms) + end == [Meaning(ms)[0]] + (Meaning(ms[1..]) + end)
  {
    var rest := Spelled(ms[1..]);
    Behind1(ms[0].c, rest, end);
    Behind2('\\', ms[0].c, rest, end);
    Behind1(Meaning(ms)[0], Meaning(ms[1..]), end);
  }

  lemma Behind1(c: char, a: string, b: string)
    ensures [c] + a + b == [c] + (a + b) && ([c] + a + b)[1..] == a + b
  {
  }

  lemma Behind2(c: char, d: char, a: string, b: string)
    ensures [c, d] + a + b == [c, d] + (a + b) && ([c, d] + a + b)[2..] == a + b
  {
  }

  // ------------------------------------------------------- structured values

  // The fields of the rest of a value, given what field one holds already.
  function Fields(s: string, field: string): (parts: seq<string>)
    ensures parts != []
    decreases |s|
  {
    if s == "" then [field]
    else if s[0] == '\\' && |s| > 1 then Fields(s[2..], field + [Plain(s[1])])
    else if s[0] == ';' then [field] + Fields(s[1..], "")
    else Fields(s[1..], field + [s[0]])
  }

  function SplitStructured(s: string): (parts: seq<string>)
    ensures parts != []
  {
    Fields(s, "")
  }

  method SplitStructuredValue(s: string) returns (parts: seq<string>)
    ensures parts == SplitStructured(s)
  {
    parts := [];
    var b := "";
    var i := 0;
    while i < |s|
      invariant 0 <= i <= |s|
      invariant parts + Fields(s[i..], b) == SplitStructured(s)
    {
      Suffixes(s, i);
      if s[i] == '\\' && i + 1 < |s| {
        i := i + 1;
        if s[i] == 'n' || s[i] == 'N' {
          b := b + ['\n'];
        } else {
          b := b + [s[i]];
        }
      } else if s[i] == ';' {
        RegroupFields(parts, b, Fields(s[i + 1..], ""));
        parts := parts + [b];
        b := "";
      } else {
        b := b + [s[i]];
      }
      i := i + 1;
    }
    parts := parts + [b];
  }

  lemma RegroupFields(a: seq<string>, f: string, b: seq<string>)
    ensures a + ([f] + b) == (a + [f]) + b
  {
  }

  // The fields of a structured value, each escaped and joined by semicolons.
  function JoinEscaped(parts: seq<string>): string
    requires parts != []
  {
    if |parts| == 1 then Escape(parts[0])
    else Escape(parts[0]) + (";" + JoinEscaped(parts[1..]))
  }

  function StripAll(parts: seq<string>): (r: seq<string>)
    ensures |r| == |parts|
    ensures forall i | 0 <= i < |r| :: r[i] == StripCR(parts[i])
  {
    seq(|parts|, i requires 0 <= i < |parts| => StripCR(parts[i]))
  }

  lemma {:induction false} FieldsOfEscaped(s: string, t: string, field: string)
    ensures Fields(Escape(s) + t, field) == Fields(t, field + StripCR(s))
    decreases |s|
  {
    if s == "" {
      assert Escape(s) + t == t && field + "" == field;
    } else {
      var u := Escape(s[1..]) + t;
      var f := field + if s[0] == '\r' then "" else [s[0]];
      FieldsOfOne(s[0], u, field);
      FieldsOfEscaped(s[1..], t, f);
      RegroupText(EscapeChar(s[0]), Escape(s[1..]), t);
      RegroupText(field, if s[0] == '\r' then "" else [s[0]], StripCR(s[1..]));
      assert (if s[0] == '\r' then "" else [s[0]]) + StripCR(s[1..]) == StripCR(s);
    }
  }

  lemma RegroupText(a: string, b: string, c: string)
    ensures (a + b) + c == a + (b + c)
  {
  }

  lemma FieldsOfOne(c: char, u: string, field: string)
    ensures Fields(EscapeChar(c) + u, field) == Fields(u, field + if c == '\r' then "" else [c])
  {
    var e := EscapeChar(c) + u;
    if c == '\r' {
      assert e == u && field + "" == field;
    } else if |EscapeChar(c)| == 2 {
      assert e[2..] == u;
    } else {
      assert e[1..] == u;
    }
  }

  // Splitting undoes joining, whatever separators, backslashes and line
  // feeds the fields themselves hold.
  lemma {:induction false} SplitJoin(parts: seq<string>)
    requires parts != []
    ensures SplitStructured(JoinEscaped(parts)) == StripAll(parts)
  {
    var first := parts[0];
    if |parts| == 1 {
      FieldsOfEscaped(first, "", "");
      assert Escape(first) + "" == Escape(first);
      assert "" + StripCR(first) == StripCR(first);
      assert Fields("", StripCR(first)) == StripAll(parts);
    } else {
      var more := JoinEscaped(parts[1..]);
      FieldsOfEscaped(first, ";" + more, "");
      assert "" + StripCR(first) == StripCR(first);
      assert (";" + more)[1..] == more;
      SplitJoin(parts[1..]);
      assert StripAll(parts) == [StripCR(first)] + StripAll(parts[1..]);
    }
  }

  // Fields spelled one after another, with bare semicolons between them.
  function SpelledFields(fields: seq<seq<Mark>>): seq<Mark>
    requires fields != []
  {
    if |fields| == 1 then fields[0] else fields[0] + ([Bare(';')] + SpelledFields(fields[1..]))
  }

  // What each of them means; a backslash at the end belongs to the last.
  function Meanings(fields: seq<seq<Mark>>, end: string): seq<string>
    requires fields != []
  {
    if |fields| == 1 then [Meaning(fields[0]) + end] else [Meaning(fields[0])] + Meanings(fields[1..], end)
  }

  predicate IsField(ms: seq<Mark>) { IsSpelling(ms) && Bare(';') !in ms }

  // Splitting any value cuts it at its bare semicolons, and each field reads
  // as its spelling means.
  lemma {:induction false} SplitReads(fields: seq<seq<Mark>>, end: string)
    requires fields != [] && (forall f | f in fields :: IsField(f)) && Ending(end)
    ensures SplitStructured(Spelled(SpelledFields(fields)) + end) == Meanings(fields, end)
    decreases |fields|
  {
    var first := fields[0];
    assert first in fields;
    if |fields| == 1 {
      FieldReads(first, [], "", end);
      LastField(first, end);
    } else {
      var more := SpelledFields(fields[1..]);
      FieldReads(first, [Bare(';')] + more, "", end);
      SplitReads(fields[1..], end);
      CutHere(more, Meaning(first), end);
    }
  }

  lemma LastField(ms: seq<Mark>, end: string)
    requires Ending(end)
    ensures ms + [] == ms && Fields(Spelled([]) + end, "" + Meaning(ms)) == [Meaning(ms) + end]
  {
    assert Spelled([]) + end == end && "" + Meaning(ms) == Meaning(ms) && Meaning(ms) + "" == Meaning(ms);
    assert end != "" ==> end[1..] == "";
  }

  lemma CutHere(more: seq<Mark>, field: string, end: string)
    ensures Fields(Spelled([Bare(';')] + more) + end, "" + field) == [field] + Fields(Spelled(more) + end, "")
  {
    assert ([Bare(';')] + more)[1..] == more && "" + field == field;
    MarkFirst([Bare(';')] + more, end);
  }

  lemma {:induction false} FieldReads(ms: seq<Mark>, more: seq<Mark>, field: string, end: string)
    requires IsField(ms)
    ensures Fields(Spelled(ms + more) + end, field) == Fields(Spelled(more) + end, field + Meaning(ms))
    decreases |ms|
  {
    if ms == [] {
      assert ms + more == more && field + "" == field;
    } else {
      var all := ms + more;
      assert ms[0] in ms && all[1..] == ms[1..] + more && all[0] == ms[0];
      MarkFirst(all, end);
      FieldReads(ms[1..], more, field + [Meaning(ms)[0]], end);
      RegroupText(field, [Meaning(ms)[0]], Meaning(ms[1..]));
    }
  }

  // No field of a value without carriage returns holds one.
  lemma {:induction false} FieldsKeepNoCR(s: string, field: string)
    requires '\r' !in s && '\r' !in field
    ensures forall i | 0 <= i < |Fields(s, field)| :: '\r' !in Fields(s, field)[i]
    decreases |s|
  {
    if s != "" {
      if s[0] == '\\' && |s| > 1 {
        FieldsKeepNoCR(s[2..], field + [Plain(s[1])]);
      } else if s[0] == ';' {
        FieldsKeepNoCR(s[1..], "");
      } else {
        FieldsKeepNoCR(s[1..], field + [s[0]]);
      }
    }
  }
}
