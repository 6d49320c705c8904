// Searching for literal text with a LIKE pattern.
// internal/storage/objects.go:196-247
module Like {
  import opened Text

  // The pattern matching of SQL LIKE with the escape character '\'. It folds
  // ASCII case.
  predicate LikeMatch(pattern: string, s: string)
    decreases |pattern| + |s|
  {
    if pattern == "" then s == ""
    else if pattern[0] == '%' then LikeMatch(pattern[1..], s) || (s != "" && LikeMatch(pattern, s[1..]))
    else if pattern[0] == '_' then s != "" && LikeMatch(pattern[1..], s[1..])
    else if pattern[0] == '\\' then
      |pattern| > 1 && s != "" && UpperChar(pattern[1]) == UpperChar(s[0]) && LikeMatch(pattern[2..], s[1..])
    else s != "" && UpperChar(pattern[0]) == UpperChar(s[0]) && LikeMatch(pattern[1..], s[1..])
  }

  function EscapeLike(s: string): string {
    if s == "" then ""
    else (if s[0] == '\\' || s[0] == '%' || s[0] == '_' then ['\\', s[0]] else [s[0]]) + EscapeLike(s[1..])
  }

  function SearchPattern(query: string): string { "%" + (EscapeLike(query) + "%") }

  predicate StartsWith(s: string, q: string) { |s| >= |q| && EqualFold(s[..|q|], q) }

  lemma {:induction false} EscapedIsLiteral(q: string, rest: string, s: string)
    ensures LikeMatch(EscapeLike(q) + rest, s) <==> StartsWith(s, q) && LikeMatch(rest, s[|q|..])
    decreases |q|
  {
    if q == "" {
      assert EscapeLike(q) + rest == rest && s[..0] == "" && s[0..] == s;
    } else {
      var tail := EscapeLike(q[1..]) + rest;
      OneEscaped(q[0], EscapeLike(q[1..]), rest);
      if s != "" {
        EscapedIsLiteral(q[1..], rest, s[1..]);
        StartsWithNext(s, q);
      }
    }
  }

  lemma OneEscaped(c: char, more: string, rest: string)
    ensures var e := (if c == '\\' || c == '%' || c == '_' then ['\\', c] else [c]) + more;
            e + rest == (if c == '\\' || c == '%' || c == '_' then ['\\', c] else [c]) + (more + rest)
    ensures ['\\', c] + (more + rest) != "" && (['\\', c] + (more + rest))[2..] == more + rest
    ensures ([c] + (more + rest))[1..] == more + rest
  {
  }

  lemma StartsWithNext(s: string, q: string)
    requires s != "" && q != ""
    ensures StartsWith(s, q) <==> UpperChar(s[0]) == UpperChar(q[0]) && StartsWith(s[1..], q[1..])
    ensures |s| >= |q| ==> s[1..][|q[1..]|..] == s[|q|..]
  {
    if |s| >= |q| {
      var a, b := Upper(s[..|q|]), Upper(q);
      assert s[1..][..|q| - 1] == s[..|q|][1..];
      assert a == [UpperChar(s[0])] + Upper(s[..|q|][1..]);
      assert b == [UpperChar(q[0])] + Upper(q[1..]);
    }
  }

  lemma {:induction false} AnySuffix(pattern: string, s: string)
    ensures LikeMatch("%" + pattern, s) <==> exists i :: 0 <= i <= |s| && LikeMatch(pattern, s[i..])
    decreases |s|
  {
    assert ("%" + pattern)[1..] == pattern && s[0..] == s;
    if s != "" {
      AnySuffix(pattern, s[1..]);
      if LikeMatch("%" + pattern, s[1..]) {
        var i :| 0 <= i <= |s[1..]| && LikeMatch(pattern, s[1..][i..]);
        assert s[1..][i..] == s[i + 1..];
      }
      if i :| 0 <= i <= |s| && LikeMatch(pattern, s[i..]) && i > 0 {
        assert s[1..][i - 1..] == s[i..];
      }
    }
  }

  // The query occurs at i, in whatever case.
  predicate OccursAt(s: string, q: string, i: nat) { i <= |s| && StartsWith(s[i..], q) }

  // A search finds the objects whose text holds the query, and no others,
  // though the query be made of wildcards and escapes.
  lemma SearchIsLiteral(query: string, s: string)
    ensures LikeMatch(SearchPattern(query), s) <==> exists i: nat :: OccursAt(s, query, i)
  {
    var tail := EscapeLike(query) + "%";
    AnySuffix(tail, s);
    forall i | 0 <= i <= |s| ensures LikeMatch(tail, s[i..]) <==> OccursAt(s, query, i) {
      EscapedIsLiteral(query, "%", s[i..]);
      if StartsWith(s[i..], query) {
        PercentMatches(s[i..][|query|..]);
      }
    }
  }

  lemma {:induction false} PercentMatches(s: string)
    ensures LikeMatch("%", s)
    decreases |s|
  {
    assert "%"[1..] == "";
    if s != "" {
      PercentMatches(s[1..]);
    }
  }
}
