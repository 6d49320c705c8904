// Logical content lines: where they end, how they unfold and how they split.
// internal/contentline/lines.go
module Lines {
  import opened Text

  predicate IsTerminator(t: string) { t == "\n" || t == "\r\n" || t == "\r" }

  // How many octets the line terminator at position i takes.
  function TerminatorWidth(s: string, i: nat): (n: nat)
    requires i < |s| && IsBreak(s[i])
    ensures 1 <= n <= |s| - i
  {
    if s[i] == '\r' && i + 1 < |s| && s[i + 1] == '\n' then 2 else 1
  }

  // The first break at or after i, or the length when there is none.
  function NextBreak(s: string, i: nat): (j: nat)
    requires i <= |s|
    ensures i <= j <= |s|
    ensures forall k | i <= k < j :: !IsBreak(s[k])
    ensures j < |s| ==> IsBreak(s[j])
    decreases |s| - i
  {
    if i == |s| || IsBreak(s[i]) then i else NextBreak(s, i + 1)
  }

  predicate BlankAt(s: string, i: nat) { i < |s| && IsBlank(s[i]) }

  // Where the logical line that is being read at i ends: at the first break
  // that no blank follows.
  function LineEnd(s: string, i: nat): (e: nat)
    requires i <= |s|
    ensures i <= e <= |s|
    ensures e < |s| ==> IsBreak(s[e])
    decreases |s| - i
  {
    if i == |s| then i
    else if !IsBreak(s[i]) then LineEnd(s, i + 1)
    else
      var n := i + TerminatorWidth(s, i);
      if BlankAt(s, n) then LineEnd(s, n + 1) else i
  }

  datatype Logical = Logical(text: string, eol: string, rest: string)

  function LogicalLine(s: string): (l: Logical) {
    var e := LineEnd(s, 0);
    if e == |s| then Logical(s, "", "")
    else
      var n := e + TerminatorWidth(s, e);
      Logical(s[..e], s[e..n], s[n..])
  }

  // The break at i is followed, before e, by the blank that makes it a fold,
  // or by the line feed that completes its terminator.
  predicate FoldedBefore(s: string, i: nat, e: nat)
    requires i < e <= |s|
  {
    i + 1 < e && (IsBlank(s[i + 1]) || (s[i] == '\r' && s[i + 1] == '\n'))
  }

  // Every break in the text is part of a fold.
  predicate Continued(text: string) {
    forall i | 0 <= i < |text| && IsBreak(text[i]) :: FoldedBefore(text, i, |text|)
  }

  // What may follow a line's terminator.
  predicate Ends(eol: string, rest: string) {
    if eol == "" then rest == ""
    else IsTerminator(eol) && (rest != "" ==> !IsBlank(rest[0]) && !(eol == "\r" && rest[0] == '\n'))
  }

  method NextLogicalLine(s: string) returns (text: string, eol: string, rest: string)
    ensures Logical(text, eol, rest) == LogicalLine(s)
    ensures s == text + eol + rest && Continued(text) && Ends(eol, rest)
  {
    var b := "";
    var at := 0;
    while true
      invariant at <= |s| && b == s[..at]
      invariant LineEnd(s, 0) == LineEnd(s, at)
      decreases |s| - at
    {
      var i := NextBreak(s, at);
      PlainStretch(s, at, i);
      Joined(s, at, i);
      b := b + s[at..i];
      if i == |s| {
        EndsAt(s, i);
        text, eol, rest := b, "", "";
        break;
      }
      var term := TerminatorAt(s, i);
      var next := i + |term|;
      if next < |s| && (s[next] == ' ' || s[next] == '\t') {
        GoesOn(s, i, b, term);
        b := b + term;
        b := b + [s[next]];
        at := next + 1;
      } else {
        EndsAt(s, i);
        text, eol, rest := b, term, s[next..];
        break;
      }
    }
    LogicalLineSound(s);
  }

  // The terminator at a break: CRLF, or a lone CR or LF.
  method TerminatorAt(s: string, i: nat) returns (term: string)
    requires i < |s| && IsBreak(s[i])
    ensures term == s[i..i + TerminatorWidth(s, i)] && |term| == TerminatorWidth(s, i)
    ensures IsTerminator(term)
  {
    TerminatorText(s, i);
    term := "\n";
    if s[i] == '\r' {
      if i + 1 < |s| && s[i + 1] == '\n' {
        term := "\r\n";
      } else {
        term := "\r";
      }
    }
  }

  // The line ends at i: there is nothing more, or a break that is no fold.
  lemma EndsAt(s: string, i: nat)
    requires i <= |s| && LineEnd(s, 0) == LineEnd(s, i)
    requires i < |s| ==> IsBreak(s[i]) && !BlankAt(s, i + TerminatorWidth(s, i))
    ensures LogicalLine(s) ==
            if i == |s| then Logical(s[..i], "", "")
            else Logical(s[..i], s[i..i + TerminatorWidth(s, i)], s[i + TerminatorWidth(s, i)..])
  {
    StopsAt(s, i);
    assert i == |s| ==> s[..i] == s;
  }

  lemma StopsAt(s: string, i: nat)
    requires i <= |s|
    requires i < |s| ==> IsBreak(s[i]) && !BlankAt(s, i + TerminatorWidth(s, i))
    ensures LineEnd(s, i) == i
  {
  }

  // It goes on behind the fold at i.
  lemma GoesOn(s: string, i: nat, b: string, term: string)
    requires i < |s| && IsBreak(s[i]) && b == s[..i]
    requires |term| == TerminatorWidth(s, i) && term == s[i..i + |term|] && BlankAt(s, i + |term|)
    ensures b + term + [s[i + |term|]] == s[..i + |term| + 1]
    ensures LineEnd(s, i) == LineEnd(s, i + |term| + 1)
  {
  }

  lemma Joined(s: string, i: nat, j: nat)
    requires i <= j <= |s|
    ensures s[..i] + s[i..j] == s[..j]
    ensures j == i + 1 ==> s[i..j] == [s[i]]
  {
  }

  lemma TerminatorText(s: string, i: nat)
    requires i < |s| && IsBreak(s[i])
    ensures s[i..i + TerminatorWidth(s, i)] ==
            if TerminatorWidth(s, i) == 2 then "\r\n" else if s[i] == '\r' then "\r" else "\n"
  {
  }

  lemma {:induction false} PlainStretch(s: string, i: nat, j: nat)
    requires i <= j <= |s| && forall k | i <= k < j :: !IsBreak(s[k])
    ensures LineEnd(s, i) == LineEnd(s, j)
    decreases j - i
  {
    if i < j {
      PlainStretch(s, i + 1, j);
    }
  }

  lemma LogicalLineSound(s: string)
    ensures var l := LogicalLine(s);
            s == l.text + l.eol + l.rest && Continued(l.text) && Ends(l.eol, l.rest) &&
            (s != "" ==> |l.rest| < |s|)
  {
    var e := LineEnd(s, 0);
    LineEndSound(s, 0);
    if e < |s| {
      TerminatorText(s, e);
    }
    forall i | 0 <= i < e && IsBreak(s[..e][i])
      ensures FoldedBefore(s[..e], i, e)
    {
      assert FoldedBefore(s, i, e);
    }
  }

  lemma {:induction false} LineEndSound(s: string, i: nat)
    requires i <= |s|
    ensures forall k | i <= k < LineEnd(s, i) && IsBreak(s[k]) :: FoldedBefore(s, k, LineEnd(s, i))
    ensures LineEnd(s, i) < |s| ==> !BlankAt(s, LineEnd(s, i) + TerminatorWidth(s, LineEnd(s, i)))
    decreases |s| - i
  {
    if i < |s| {
      if !IsBreak(s[i]) {
        LineEndSound(s, i + 1);
      } else {
        var n := i + TerminatorWidth(s, i);
        if BlankAt(s, n) {
          LineEndSound(s, n + 1);
          var e := LineEnd(s, n + 1);
          assert FoldedBefore(s, i, e);
          assert n == i + 2 ==> FoldedBefore(s, i + 1, e);
        }
      }
    }
  }

  // The conditions determine the split: whatever text, terminator and
  // remainder satisfy them are the ones the scan finds.
  lemma LogicalLineUnique(text: string, eol: string, rest: string)
    requires Continued(text) && Ends(eol, rest)
    ensures LogicalLine(text + eol + rest) == Logical(text, eol, rest)
  {
    var s := text + eol + rest;
    LineEndAtText(text, eol, rest, 0);
    if eol != "" {
      var e := |text|;
      assert s[e..] == eol + rest;
      assert s[e] == eol[0];
      assert e + 1 < |s| ==> s[e + 1] == (eol + rest)[1];
      assert TerminatorWidth(s, e) == |eol|;
      assert s[..e] == text && s[e..e + |eol|] == eol && s[e + |eol|..] == rest;
    } else {
      assert s == text;
    }
  }

  lemma {:induction false} LineEndAtText(text: string, eol: string, rest: string, i: nat)
    requires Continued(text) && Ends(eol, rest) && i <= |text|
    ensures LineEnd(text + eol + rest, i) == |text|
    decreases |text| - i
  {
    var s := text + eol + rest;
    if i == |text| {
      if eol != "" {
        assert s[i] == eol[0];
        assert i + 1 < |s| ==> s[i + 1] == (eol + rest)[1];
        var n := i + TerminatorWidth(s, i);
        assert n == i + |eol|;
        assert n < |s| ==> s[n] == rest[0];
      }
    } else {
      assert s[i] == text[i];
      if !IsBreak(text[i]) {
        LineEndAtText(text, eol, rest, i + 1);
      } else {
        assert FoldedBefore(text, i, |text|);
        assert s[i + 1] == text[i + 1];
        if text[i] == '\r' && text[i + 1] == '\n' {
          assert FoldedBefore(text, i + 1, |text|);
          assert s[i + 2] == text[i + 2];
          LineEndAtText(text, eol, rest, i + 3);
        } else {
          LineEndAtText(text, eol, rest, i + 2);
        }
      }
    }
  }

  // ---------------------------------------------------------------- unfolding

  // Where reading goes on after the break at i: past the terminator and the
  // one blank that follows it.
  function AfterFold(s: string, i: nat): (n: nat)
    requires i < |s| && IsBreak(s[i])
    ensures i < n <= |s|
  {
    var n := i + TerminatorWidth(s, i);
    if BlankAt(s, n) then n + 1 else n
  }

  function UnfoldFrom(s: string, i: nat): (u: string)
    requires i <= |s|
    ensures BreakFree(u)
    decreases |s| - i
  {
    if i == |s| then ""
    else if IsBreak(s[i]) then UnfoldFrom(s, AfterFold(s, i))
    else [s[i]] + UnfoldFrom(s, i + 1)
  }

  function Unfold(s: string): string { UnfoldFrom(s, 0) }

  method UnfoldText(text: string) returns (u: string)
    ensures u == Unfold(text)
  {
    UnfoldPlain(text, 0, |text|);
    if BreakFree(text) {
      return text;
    }
    var b := "";
    var i := 0;
    while i < |text|
      invariant 0 <= i <= |text|
      invariant b + UnfoldFrom(text, i) == Unfold(text)
    {
      if IsBreak(text[i]) {
        i := SkipFold(text, i);
      } else {
        PastPlain(text, i, b);
        b := b + [text[i]];
        i := i + 1;
      }
    }
    return b;
  }

  // Steps over a terminator and the one blank behind it.
  method SkipFold(text: string, at: nat) returns (n: nat)
    requires at < |text| && IsBreak(text[at])
    ensures n == AfterFold(text, at) && UnfoldFrom(text, at) == UnfoldFrom(text, n)
  {
    var i := at;
    if text[i] == '\r' && i + 1 < |text| && text[i + 1] == '\n' {
      i := i + 1;
    }
    if i + 1 < |text| && (text[i + 1] == ' ' || text[i + 1] == '\t') {
      i := i + 1;
    }
    n := i + 1;
  }

  lemma PastPlain(s: string, i: nat, b: string)
    requires i < |s| && !IsBreak(s[i])
    ensures b + UnfoldFrom(s, i) == (b + [s[i]]) + UnfoldFrom(s, i + 1)
  {
    assert b + ([s[i]] + UnfoldFrom(s, i + 1)) == (b + [s[i]]) + UnfoldFrom(s, i + 1);
  }

  // Octets that are not breaks are kept.
  lemma {:induction false} UnfoldPlain(s: string, i: nat, j: nat)
    requires i <= j <= |s|
    ensures BreakFree(s[i..j]) ==> UnfoldFrom(s, i) == s[i..j] + UnfoldFrom(s, j)
    decreases j - i
  {
    if i < j && BreakFree(s[i..j]) {
      assert s[i] == s[i..j][0];
      assert s[i + 1..j] == s[i..j][1..];
      UnfoldPlain(s, i + 1, j);
      assert [s[i]] + (s[i + 1..j] + UnfoldFrom(s, j)) == s[i..j] + UnfoldFrom(s, j);
    }
  }

  lemma {:induction false} UnfoldSuffix(a: string, t: string, i: nat)
    requires i <= |t|
    ensures UnfoldFrom(a + t, |a| + i) == UnfoldFrom(t, i)
    decreases |t| - i
  {
    if i < |t| {
      if IsBreak(t[i]) {
        AfterFoldSuffix(a, t, i);
        UnfoldSuffix(a, t, AfterFold(t, i));
      } else {
        assert (a + t)[|a| + i] == t[i];
        UnfoldSuffix(a, t, i + 1);
      }
    }
  }

  lemma AfterFoldSuffix(a: string, t: string, i: nat)
    requires i < |t| && IsBreak(t[i])
    ensures (a + t)[|a| + i] == t[i]
    ensures AfterFold(a + t, |a| + i) == |a| + AfterFold(t, i)
  {
    var s := a + t;
    assert i + 1 < |t| ==> s[|a| + i + 1] == t[i + 1];
    assert i + 2 < |t| ==> s[|a| + i + 2] == t[i + 2];
  }

  lemma UnfoldPlainPrefix(a: string, t: string)
    requires BreakFree(a)
    ensures Unfold(a + t) == a + Unfold(t)
  {
    assert (a + t)[0..|a|] == a;
    UnfoldPlain(a + t, 0, |a|);
    UnfoldSuffix(a, t, 0);
  }

  // A fold, with either blank behind any of the three terminators, leaves no
  // trace; what stands before it is kept.
  lemma UnfoldFolded(a: string, eol: string, blank: char, t: string)
    requires BreakFree(a) && eol in {"\n", "\r\n", "\r"} && blank in {' ', '\t'}
    ensures Unfold(a + (eol + [blank] + t)) == a + Unfold(t)
  {
    var s := eol + [blank] + t;
    UnfoldPlainPrefix(a, s);
    assert s[0] == eol[0] && (|eol| == 2 ==> s[1] == eol[1]) && s[|eol|] == blank;
    assert AfterFold(s, 0) == |eol| + 1;
    UnfoldSuffix(eol + [blank], t, 0);
  }

  // So does a break that no blank follows.
  lemma UnfoldBroken(a: string, eol: string, t: string)
    requires BreakFree(a) && eol in {"\n", "\r\n", "\r"}
    requires t != "" ==> t[0] !in {' ', '\t'} && !(eol == "\r" && t[0] == '\n')
    ensures Unfold(a + (eol + t)) == a + Unfold(t)
  {
    var s := eol + t;
    UnfoldPlainPrefix(a, s);
    assert s[0] == eol[0] && (|eol| == 2 ==> s[1] == eol[1]) && (t != "" ==> s[|eol|] == t[0]);
    assert AfterFold(s, 0) == |eol|;
    UnfoldSuffix(eol, t, 0);
  }

  lemma UnfoldAcrossFold(eol: string, t: string)
    requires IsTerminator(eol)
    ensures Unfold(eol + " " + t) == Unfold(t)
  {
    var s := eol + " " + t;
    var a := eol + " ";
    assert s[0] == a[0] && s[1] == a[1] && s[|eol|] == ' ';
    assert AfterFold(s, 0) == |a|;
    UnfoldSuffix(a, t, 0);
  }

  // -------------------------------------------------------- splitting a line

  datatype Parts = Parts(group: string, name: string, params: string, value: string)

  // The first colon at or after i that is outside double quotes, or the
  // length when there is none.
  function Colon(s: string, i: nat, quoted: bool): (c: nat)
    requires i <= |s|
    ensures i <= c <= |s|
    ensures c < |s| ==> s[c] == ':'
    decreases |s| - i
  {
    if i == |s| then i
    else if s[i] == '"' then Colon(s, i + 1, !quoted)
    else if s[i] == ':' && !quoted then i
    else Colon(s, i + 1, quoted)
  }

  // How many quotation marks a text holds.
  function Marks(s: string): nat {
    if s == "" then 0 else Marks(s[..|s| - 1]) + if s[|s| - 1] == '"' then 1 else 0
  }

  // A colon with an even number of marks before it is outside of quotation.
  predicate FreeColon(s: string, k: nat) { k < |s| && s[k] == ':' && Marks(s[..k]) % 2 == 0 }

  // The colon found is the first that is free, and there is none when none is.
  lemma ColonIsFirstFree(s: string)
    ensures var c := Colon(s, 0, false);
            (c < |s| ==> FreeColon(s, c)) && forall k: nat | k < c :: !FreeColon(s, k)
  {
    ColonFromIsFree(s, 0, false);
  }

  lemma {:induction false} ColonFromIsFree(s: string, i: nat, quoted: bool)
    requires i <= |s| && (quoted <==> Marks(s[..i]) % 2 == 1)
    ensures var c := Colon(s, i, quoted);
            (c < |s| ==> FreeColon(s, c)) && forall k: nat | i <= k < c :: !FreeColon(s, k)
    decreases |s| - i
  {
    if i < |s| {
      MarksNext(s, i);
      if s[i] == '"' {
        ColonFromIsFree(s, i + 1, !quoted);
      } else if s[i] != ':' || quoted {
        ColonFromIsFree(s, i + 1, quoted);
      }
    }
  }

  lemma MarksNext(s: string, i: nat)
    requires i < |s|
    ensures Marks(s[..i + 1]) == Marks(s[..i]) + if s[i] == '"' then 1 else 0
  {
    assert s[..i + 1][..i] == s[..i];
  }

  // Group, name and parameters of what precedes the colon. The name is
  // upper-cased; a group is whatever precedes the first dot of the name.
  function SplitHead(head: string, value: string): Parts {
    var semi := IndexOf(head, ';');
    var id := head[..semi];
    var dot := IndexOf(id, '.');
    if dot < |id| then Parts(id[..dot], Upper(id[dot + 1..]), head[semi..], value)
    else Parts("", Upper(id), head[semi..], value)
  }

  function SplitLine(s: string): Parts {
    var c := Colon(s, 0, false);
    if c == |s| then Parts("", Upper(s), "", "")
    else SplitHead(s[..c], s[c + 1..])
  }

  // Parts put together are the text before a colon: the group is what stands
  // before the first dot of the name, and the parameters begin at the first
  // semicolon.
  ghost predicate HeadOf(head: string, p: Parts) {
    exists id, orig :: HeadIs(head, p, id, orig)
  }

  predicate HeadIs(head: string, p: Parts, id: string, orig: string) {
    head == id + p.params && ';' !in id && (p.params != "" ==> p.params[0] == ';') && p.name == Upper(orig) &&
    if '.' in id then id == p.group + "." + orig && '.' !in p.group else p.group == "" && orig == id
  }

  // What a line says: behind the first free colon its value, before it the
  // rest; without one it is a name.
  ghost predicate Says(s: string, p: Parts) {
    if exists c: nat :: FreeColon(s, c) then
      exists c: nat :: FreeColon(s, c) && (forall k: nat | k < c :: !FreeColon(s, k)) && p.value == s[c + 1..] && HeadOf(s[..c], p)
    else p == Parts("", Upper(s), "", "")
  }

  lemma HeadIsSplit(head: string, value: string)
    ensures HeadOf(head, SplitHead(head, value))
  {
    var p := SplitHead(head, value);
    var semi := IndexOf(head, ';');
    var id := head[..semi];
    var dot := IndexOf(id, '.');
    assert head == id + p.params;
    assert '.' in id <==> dot < |id| by {
      if '.' in id {
        var k :| 0 <= k < |id| && id[k] == '.';
      }
    }
    assert ';' !in id;
    if dot < |id| {
      assert id == p.group + "." + id[dot + 1..];
      assert HeadIs(head, p, id, id[dot + 1..]);
    } else {
      assert HeadIs(head, p, id, id);
    }
  }

  lemma SplitSays(s: string)
    ensures Says(s, SplitLine(s))
  {
    var c := Colon(s, 0, false);
    ColonIsFirstFree(s);
    if c < |s| {
      HeadIsSplit(s[..c], s[c + 1..]);
      assert FreeColon(s, c);
    }
  }

  method SplitContentLine(s: string) returns (group: string, name: string, params: string, value: string)
    ensures Parts(group, name, params, value) == SplitLine(s)
    ensures Says(s, Parts(group, name, params, value))
  {
    group, name, params, value := SplitAtColon(s);
    SplitSays(s);
  }

  method SplitAtColon(s: string) returns (group: string, name: string, params: string, value: string)
    ensures Parts(group, name, params, value) == SplitLine(s)
  {
    var colon := -1;
    var quoted := false;
    var i := 0;
    while i < |s| && colon < 0
      invariant 0 <= i <= |s|
      invariant colon < 0 ==> Colon(s, 0, false) == Colon(s, i, quoted)
      invariant colon >= 0 ==> colon < |s| && colon == Colon(s, 0, false)
      decreases |s| - i, if colon < 0 then 1 else 0
    {
      if s[i] == '"' {
        quoted := !quoted;
      } else if s[i] == ':' {
        if !quoted {
          colon := i;
        }
      }
      if colon < 0 {
        i := i + 1;
      }
    }
    if colon < 0 {
      return "", Upper(s), "", "";
    }
    var p := SplitHead(s[..colon], s[colon + 1..]);
    return p.group, p.name, p.params, p.value;
  }

  // The text rebuilt from the parts of a line.
  function Head(p: Parts): string {
    if p.group == "" then p.name + p.params else p.group + "." + p.name + p.params
  }

  function Rebuild(p: Parts): string { Head(p) + ":" + p.value }

  // Lines whose rebuilt text splits into the same parts again, whatever the
  // value is.
  predicate Readable(p: Parts) {
    Colon(Head(p) + ":", 0, false) == |Head(p)| &&
    SplitHead(Head(p), p.value) == p
  }

  lemma SplitRebuild(p: Parts)
    requires Readable(p)
    ensures SplitLine(Rebuild(p)) == p
  {
    var h := Head(p);
    ColonPrefix(h + ":", p.value, 0, false);
    assert h + ":" + p.value == Rebuild(p);
    assert Rebuild(p)[..|h|] == h && Rebuild(p)[|h| + 1..] == p.value;
  }

  lemma {:induction false} ColonPrefix(s: string, t: string, i: nat, quoted: bool)
    requires i <= |s| && Colon(s, i, quoted) < |s|
    ensures Colon(s + t, i, quoted) == Colon(s, i, quoted)
    decreases |s| - i
  {
    if s[i] == '"' {
      ColonPrefix(s, t, i + 1, !quoted);
    } else if s[i] == ':' && !quoted {
    } else {
      ColonPrefix(s, t, i + 1, quoted);
    }
  }

  // A property name a caller may write: it cannot be mistaken for a group,
  // a parameter, a value, a quotation or a fold.
  predicate PlainName(name: string) {
    name != "" && !IsBlank(name[0]) && Upper(name) == name &&
    forall i | 0 <= i < |name| :: PlainChar(name[i])
  }

  predicate PlainChar(c: char) {
    c as int < 0x80 && c != '.' && c != ';' && c != ':' && c != '"' && !IsBreak(c)
  }

  predicate Without(s: string, c: char) {
    forall i | 0 <= i < |s| :: s[i] != c
  }

  lemma PlainNameReadable(name: string, value: string)
    requires PlainName(name)
    ensures Readable(Parts("", name, "", value))
  {
    var p := Parts("", name, "", value);
    assert Head(p) == name;
    ColonAfterPlain(name, 0);
    HeadOfName(name, "", value);
    assert name + "" == name;
  }

  lemma {:induction false} ColonAfterPlain(name: string, i: nat)
    requires i <= |name| && Without(name, ':') && Without(name, '"')
    ensures Colon(name + ":", i, false) == |name|
    decreases |name| - i
  {
    if i < |name| {
      ColonAfterPlain(name, i + 1);
    }
  }

  // Whatever line was read under a plain name, rebuilding it is safe: the
  // upper-cased name and a dropped empty group do not move the colon.
  lemma ReadLinesAreReadable(s: string, p: Parts)
    requires PlainName(p.name) && p == SplitLine(s).(value := p.value)
    ensures Readable(p)
  {
    var c := Colon(s, 0, false);
    if c == |s| {
      PlainNameReadable(p.name, p.value);
    } else {
      ColonOfHead(s, 0, false);
      HeadIsReadable(s[..c], p);
    }
  }

  lemma HeadIsReadable(head: string, p: Parts)
    requires Colon(head + ":", 0, false) == |head|
    requires PlainName(p.name) && p == SplitHead(head, p.value)
    ensures Readable(p)
  {
    if IndexOf(head[..IndexOf(head, ';')], '.') == IndexOf(head, ';') {
      PlainHead(head, p);
    } else {
      DottedSplit(head, p);
    }
  }

  lemma HeadParts(head: string, p: Parts)
    requires p == SplitHead(head, p.value)
    ensures p.params == head[IndexOf(head, ';')..] && head == head[..IndexOf(head, ';')] + p.params
    ensures p.params == "" || p.params[0] == ';'
  {
    CutAt(head, IndexOf(head, ';'));
  }

  lemma PlainHead(head: string, p: Parts)
    requires Colon(head + ":", 0, false) == |head| && PlainName(p.name) && p == SplitHead(head, p.value)
    requires IndexOf(head[..IndexOf(head, ';')], '.') == IndexOf(head, ';')
    ensures Readable(p)
  {
    HeadParts(head, p);
    RebuiltName(head, head[..IndexOf(head, ';')], p);
  }

  lemma DottedSplit(head: string, p: Parts)
    requires Colon(head + ":", 0, false) == |head| && PlainName(p.name) && p == SplitHead(head, p.value)
    requires IndexOf(head[..IndexOf(head, ';')], '.') < IndexOf(head, ';')
    ensures Readable(p)
  {
    var id := head[..IndexOf(head, ';')];
    HeadParts(head, p);
    DottedHead(head, id, IndexOf(id, '.'), p);
  }

  lemma DottedHead(head: string, id: string, dot: nat, p: Parts)
    requires Colon(head + ":", 0, false) == |head| && head == id + p.params
    requires dot == IndexOf(id, '.') < |id| && Without(id, ';')
    requires PlainName(p.name) && p.group == id[..dot] && p.name == Upper(id[dot + 1..])
    requires p.params == "" || p.params[0] == ';'
    ensures Readable(p)
  {
    AroundDot(id, dot);
    if dot == 0 {
      DottedName(head, id[dot + 1..], p);
    } else {
      RebuiltGroup(head, id[dot + 1..], p);
    }
  }

  lemma DottedName(head: string, orig: string, p: Parts)
    requires PlainName(p.name) && p.group == "" && p.name == Upper(orig) && (p.params == "" || p.params[0] == ';')
    requires head == "." + orig + p.params && Colon(head + ":", 0, false) == |head|
    ensures Readable(p)
  {
    var rest := orig + p.params;
    assert head == "." + rest;
    ColonShift(rest);
    RebuiltName(rest, orig, p);
  }

  lemma CutAt(s: string, i: nat)
    requires i <= |s|
    ensures s == s[..i] + s[i..]
  {
  }

  lemma AroundDot(s: string, i: nat)
    requires i < |s| && s[i] == '.'
    ensures s == s[..i] + "." + s[i + 1..]
    ensures i == 0 ==> s == "." + s[i + 1..]
  {
  }

  // Two texts with their colons and quotation marks in the same places.
  predicate SameMarks(s: string, t: string) {
    |s| == |t| &&
    forall k | 0 <= k < |s| :: (s[k] == ':' <==> t[k] == ':') && (s[k] == '"' <==> t[k] == '"')
  }

  lemma UpperKeepsMarks(a: string, orig: string, b: string)
    ensures SameMarks(a + orig + b, a + Upper(orig) + b)
  {
  }

  lemma RebuiltHead(head: string, p: Parts)
    requires Colon(head + ":", 0, false) == |head| && SameMarks(head, Head(p))
    requires SplitHead(Head(p), p.value) == p
    ensures Readable(p)
  {
    ColonSkeleton(head + ":", Head(p) + ":", 0, false);
  }

  lemma RebuiltName(head: string, orig: string, p: Parts)
    requires PlainName(p.name) && p.group == "" && p.name == Upper(orig) && (p.params == "" || p.params[0] == ';')
    requires head == orig + p.params && Colon(head + ":", 0, false) == |head|
    ensures Readable(p)
  {
    HeadOfName(p.name, p.params, p.value);
    RebuiltHead(head, p);
  }

  lemma RebuiltGroup(head: string, orig: string, p: Parts)
    requires PlainName(p.name) && p.name == Upper(orig) && (p.params == "" || p.params[0] == ';')
    requires p.group != "" && Without(p.group, ';') && Without(p.group, '.')
    requires head == p.group + "." + orig + p.params && Colon(head + ":", 0, false) == |head|
    ensures Readable(p)
  {
    UpperKeepsMarks(p.group + ".", orig, p.params);
    HeadOfGroup(p.group, p.name, p.params, p.value);
    RebuiltHead(head, p);
  }

  lemma {:induction false} ColonOfHead(s: string, i: nat, quoted: bool)
    requires i <= |s| && Colon(s, i, quoted) < |s|
    ensures var c := Colon(s, i, quoted); Colon(s[..c] + ":", i, quoted) == c
    decreases |s| - i
  {
    var c := Colon(s, i, quoted);
    var t := s[..c] + ":";
    assert i < |t| && t[i] == s[i];
    if s[i] == '"' {
      ColonOfHead(s, i + 1, !quoted);
    } else if s[i] == ':' && !quoted {
    } else {
      ColonOfHead(s, i + 1, quoted);
    }
  }

  lemma {:induction false} ColonSkeleton(s: string, t: string, i: nat, quoted: bool)
    requires i <= |s| && SameMarks(s, t)
    ensures Colon(s, i, quoted) == Colon(t, i, quoted)
    decreases |s| - i
  {
    if i < |s| {
      ColonSkeleton(s, t, i + 1, quoted);
      ColonSkeleton(s, t, i + 1, !quoted);
    }
  }

  lemma ColonShift(t: string)
    requires Colon("." + t + ":", 0, false) == |t| + 1
    ensures Colon(t + ":", 0, false) == |t|
  {
    assert "." + t + ":" == "." + (t + ":");
    ColonDrop(".", t + ":", 0, false);
  }

  lemma {:induction false} ColonDrop(a: string, t: string, i: nat, quoted: bool)
    requires i <= |t|
    ensures Colon(a + t, |a| + i, quoted) == |a| + Colon(t, i, quoted)
    decreases |t| - i
  {
    if i < |t| {
      assert (a + t)[|a| + i] == t[i];
      ColonDrop(a, t, i + 1, quoted);
      ColonDrop(a, t, i + 1, !quoted);
    }
  }

  lemma HeadOfName(name: string, params: string, value: string)
    requires PlainName(name) && (params == "" || params[0] == ';')
    ensures SplitHead(name + params, value) == Parts("", name, params, value)
  {
    IndexOfSplit(name, params, ';');
    assert (name + params)[..|name|] == name && (name + params)[|name|..] == params;
    IndexOfSplit(name, "", '.');
    assert name + "" == name;
  }

  lemma HeadOfGroup(group: string, name: string, params: string, value: string)
    requires PlainName(name) && (params == "" || params[0] == ';')
    requires Without(group, ';') && Without(group, '.')
    ensures SplitHead(group + "." + name + params, value) == Parts(group, name, params, value)
  {
    var id := group + "." + name;
    IndexOfSplit(id, params, ';');
    assert (id + params)[..|id|] == id && (id + params)[|id|..] == params;
    IndexOfSplit(group, "." + name, '.');
    assert group + ("." + name) == id;
    assert id[..|group|] == group && id[|group| + 1..] == name;
  }

  lemma IndexOfSplit(a: string, b: string, c: char)
    requires Without(a, c) && (b == "" || b[0] == c)
    ensures IndexOf(a + b, c) == |a|
  {
    var s := a + b;
    forall k | 0 <= k < |a| ensures s[k] != c {
      assert s[k] == a[k];
    }
    assert b != "" ==> s[|a|] == c;
  }
}
