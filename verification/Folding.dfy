// Folding a rebuilt line at 75 octets. internal/contentline/lines.go:105-139
module Folding {
  import opened Text
  import opened Lines

  const LIMIT := 75

  // A UTF-8 continuation octet: its two top bits are 10.
  predicate IsContinuation(c: char) { 0x80 <= c as int < 0xC0 }

  // Backs off from end so that the next physical line does not begin in the
  // middle of a UTF-8 sequence.
  function Cut(s: string, start: nat, end: nat): (c: nat)
    requires start <= end < |s|
    ensures start <= c <= end
    ensures c > start ==> !IsContinuation(s[c])
    ensures forall k | c < k <= end :: IsContinuation(s[k])
  {
    if end > start && IsContinuation(s[end]) then Cut(s, start, end - 1) else end
  }

  function Lead(start: nat): string { if start > 0 then " " else "" }

  function WindowEnd(start: nat): nat { start + LIMIT - |Lead(start)| }

  // The loop leaves start, and every later start it comes to. When a whole
  // window is continuation octets the loop backs off to where it started and
  // repeats forever.
  predicate Advances(s: string, start: nat)
    requires start <= |s|
    decreases |s| - start
  {
    WindowEnd(start) >= |s| ||
    (var c := Cut(s, start, WindowEnd(start)); c > start && Advances(s, c))
  }

  predicate FoldTerminates(s: string) { Advances(s, 0) }

  // What the loop writes from start on. Where the loop does not advance
  // there is no result; the value given then is never used.
  function FoldFrom(s: string, start: nat, eol: string): string
    requires start <= |s|
    decreases |s| - start
  {
    var end := WindowEnd(start);
    if end >= |s| then Lead(start) + s[start..]
    else
      var c := Cut(s, start, end);
      if c == start then ""
      else Lead(start) + s[start..c] + (eol + FoldFrom(s, c, eol))
  }

  function Fold(s: string, eol: string): string { FoldFrom(s, 0, eol) }

  method FoldLine(s: string, eol: string) returns (r: string)
    requires FoldTerminates(s)
    ensures r == Fold(s, eol) && Laid(s, 0, r, eol)
  {
    r := WriteFolded(s, eol);
    FoldIsLaid(s, 0, eol);
  }

  method WriteFolded(s: string, eol: string) returns (r: string)
    requires FoldTerminates(s)
    ensures r == Fold(s, eol)
  {
    if |s| <= LIMIT {
      assert s[0..] == s && Lead(0) + s == s;
      return s;
    }
    r := "";
    var start := 0;
    while start < |s|
      invariant start < |s| && Advances(s, start)
      invariant r + FoldFrom(s, start, eol) == Fold(s, eol)
      decreases |s| - start
    {
      ghost var before := r;
      var width := LIMIT;
      if start > 0 {
        r := r + " ";
        width := width - 1;
      }
      assert r == before + Lead(start) && start + width == WindowEnd(start);
      var end := start + width;
      if end >= |s| {
        Regroup3(before, Lead(start), s[start..], "");
        r := r + s[start..];
        return;
      }
      ghost var wide := end;
      while end > start && IsContinuation(s[end])
        invariant start <= end <= wide
        invariant Cut(s, start, end) == Cut(s, start, wide)
      {
        end := end - 1;
      }
      Regroup3(before, Lead(start), s[start..end], eol + FoldFrom(s, end, eol));
      Regroup3(r + s[start..end], eol, FoldFrom(s, end, eol), "");
      r := r + s[start..end];
      r := r + eol;
      start := end;
    }
  }

  lemma Regroup3(a: string, b: string, c: string, d: string)
    ensures a + (b + c + d) == (a + b + c) + d
    ensures a + (b + c) == a + b + c
    ensures a + b + c + "" == a + b + c
  {
  }

  // Unfolding gives the line back.
  lemma UnfoldFold(s: string, eol: string)
    requires BreakFree(s) && IsTerminator(eol) && FoldTerminates(s)
    ensures Unfold(Fold(s, eol)) == s
  {
    UnfoldFoldFrom(s, 0, eol);
    assert s[0..] == s;
    assert eol + Fold(s, eol) == eol + Fold(s, eol);
  }

  lemma {:induction false} UnfoldFoldFrom(s: string, start: nat, eol: string)
    requires start <= |s| && BreakFree(s) && IsTerminator(eol) && Advances(s, start)
    ensures start == 0 ==> Unfold(FoldFrom(s, start, eol)) == s[start..]
    ensures start > 0 ==> Unfold(eol + FoldFrom(s, start, eol)) == s[start..]
    decreases |s| - start
  {
    var end := WindowEnd(start);
    var text, more := s[start..], "";
    if end < |s| {
      var c := Cut(s, start, end);
      text, more := s[start..c], eol + FoldFrom(s, c, eol);
      UnfoldFoldFrom(s, c, eol);
      assert text + s[c..] == s[start..];
    }
    assert text + "" == text;
    UnfoldPlainPrefix(text, more);
    assert Unfold("") == "";
    Chunk(start, eol, text, more);
    if start > 0 {
      UnfoldAcrossFold(eol, text + more);
    }
  }

  lemma Chunk(start: nat, eol: string, text: string, more: string)
    ensures start == 0 ==> Lead(start) + text + more == text + more
    ensures start == 0 ==> Lead(start) + text == text
    ensures start > 0 ==> eol + (Lead(start) + text + more) == eol + " " + (text + more)
    ensures start > 0 ==> eol + (Lead(start) + text) == eol + " " + text
  {
  }

  // --------------------------------------------------- what the output looks like

  // No physical line exceeds 75 octets.
  predicate Narrow(r: string) {
    forall i: nat, j: nat | i <= j <= |r| && BreakFree(r[i..j]) :: j - i <= 75
  }

  // No physical line after the first begins, behind its leading space, in
  // the middle of a UTF-8 sequence.
  predicate WholeCharacters(r: string) {
    forall k: nat | k + 2 < |r| && IsBreak(r[k]) && IsBlank(r[k + 1]) :: !(0x80 <= r[k + 2] as int < 0xC0)
  }

  lemma {:induction false} FoldShape(s: string, start: nat, eol: string)
    requires start <= |s| && BreakFree(s) && IsTerminator(eol) && Advances(s, start)
    ensures Narrow(FoldFrom(s, start, eol)) && WholeCharacters(FoldFrom(s, start, eol))
    ensures 0 < start < |s| ==> Begins(FoldFrom(s, start, eol), s[start])
    decreases |s| - start
  {
    var end := WindowEnd(start);
    if end >= |s| {
      var r := Lead(start) + s[start..];
      assert BreakFree(r) && |r| <= LIMIT;
    } else {
      var c := Cut(s, start, end);
      FoldShape(s, c, eol);
      ChunkShape(s, start, c, eol, FoldFrom(s, c, eol));
    }
  }

  predicate Begins(r: string, c: char) { |r| > 1 && r[0] == ' ' && r[1] == c }

  lemma ChunkShape(s: string, start: nat, c: nat, eol: string, b: string)
    requires start < c < |s| && c <= WindowEnd(start) && BreakFree(s) && IsTerminator(eol)
    requires Narrow(b) && WholeCharacters(b) && Begins(b, s[c]) && !IsContinuation(s[c])
    ensures var r := Lead(start) + s[start..c] + (eol + b);
            Narrow(r) && WholeCharacters(r) && (start > 0 ==> Begins(r, s[start]))
  {
    var a := Lead(start) + s[start..c];
    assert BreakFree(a) && |a| <= LIMIT;
    NarrowJoin(a, eol, b);
    WholeJoin(a, eol, b);
    assert a + eol + b == a + (eol + b);
  }

  lemma NarrowJoin(a: string, eol: string, b: string)
    requires BreakFree(a) && |a| <= LIMIT && IsTerminator(eol) && Narrow(b)
    ensures Narrow(a + eol + b)
  {
    var t := a + eol + b;
    var at := |a| + |eol|;
    forall i: nat, j: nat | i <= j <= |t|
      ensures BreakFree(t[i..j]) ==> j - i <= LIMIT
    {
      if at <= i {
        assert t[i..j] == b[i - at..j - at];
      } else if |a| < j && i < j {
        BreakInside(t, i, if i < |a| then |a| else i, j);
      }
    }
  }

  lemma BreakInside(t: string, i: nat, p: nat, j: nat)
    requires i <= p < j <= |t| && IsBreak(t[p])
    ensures !BreakFree(t[i..j])
  {
    assert t[i..j][p - i] == t[p];
  }

  lemma WholeJoin(a: string, eol: string, b: string)
    requires BreakFree(a) && IsTerminator(eol) && WholeCharacters(b)
    requires |b| > 1 ==> !IsContinuation(b[1])
    ensures WholeCharacters(a + eol + b)
  {
    var t := a + eol + b;
    var at := |a| + |eol|;
    forall k: nat | k + 2 < |t| && IsBreak(t[k]) && IsBlank(t[k + 1])
      ensures !IsContinuation(t[k + 2])
    {
      assert forall i | 0 <= i < |a| :: t[i] == a[i];
      if k >= at {
        assert t[k] == b[k - at] && t[k + 1] == b[k - at + 1] && t[k + 2] == b[k - at + 2];
      } else {
        assert t[at - 1] == eol[|eol| - 1];
        assert t[k + 2] == b[1];
      }
    }
  }

  // How a line is laid out from start on: what fits is not cut, and otherwise
  // the physical line is as long as it can be, 75 octets with the blank that
  // continues it, less what it takes to end between two characters.
  ghost predicate Laid(s: string, start: nat, r: string, eol: string)
    requires start <= |s|
    decreases |s| - start
  {
    var end := if start == 0 then 75 else start + 74;
    var lead := if start == 0 then "" else " ";
    if end >= |s| then r == lead + s[start..]
    else
      exists c: nat, more: string ::
        start < c <= end && !(0x80 <= s[c] as int < 0xC0) && (forall k | c < k <= end :: 0x80 <= s[k] as int < 0xC0) &&
        r == lead + s[start..c] + (eol + more) && Laid(s, c, more, eol)
  }

  lemma {:induction false} FoldIsLaid(s: string, start: nat, eol: string)
    requires start <= |s| && Advances(s, start)
    ensures Laid(s, start, FoldFrom(s, start, eol), eol)
    decreases |s| - start
  {
    var end := WindowEnd(start);
    if end < |s| {
      var c := Cut(s, start, end);
      FoldIsLaid(s, c, eol);
    }
  }

  // What fold promises of a line without breaks: it unfolds to the same
  // line, within 75 octets a physical line, cutting between characters.
  lemma FoldedLine(s: string, eol: string)
    requires BreakFree(s) && IsTerminator(eol) && FoldTerminates(s)
    ensures Unfold(Fold(s, eol)) == s
    ensures Narrow(Fold(s, eol)) && WholeCharacters(Fold(s, eol))
  {
    UnfoldFold(s, eol);
    FoldShape(s, 0, eol);
  }

  // ------------------------------------------------------------- termination

  // The length of the UTF-8 sequence an octet leads, 0 when it leads none.
  function SequenceLength(c: char): nat {
    var b := c as int;
    if b < 0x80 then 1
    else if 0xC0 <= b < 0xE0 then 2
    else if 0xE0 <= b < 0xF0 then 3
    else if 0xF0 <= b < 0xF8 then 4
    else 0
  }

  predicate Utf8(s: string)
    decreases |s|
  {
    s == "" ||
    (var n := SequenceLength(s[0]);
     0 < n <= |s| && (forall k | 1 <= k < n :: IsContinuation(s[k])) && Utf8(s[n..]))
  }

  predicate ContinuationRun(s: string, i: nat)
    requires i + 4 <= |s|
  {
    IsContinuation(s[i]) && IsContinuation(s[i + 1]) && IsContinuation(s[i + 2]) && IsContinuation(s[i + 3])
  }

  lemma {:induction false} Utf8HasNoRun(s: string, i: nat)
    requires Utf8(s) && i + 4 <= |s|
    ensures !ContinuationRun(s, i)
    decreases |s|
  {
    var n := SequenceLength(s[0]);
    var t := s[n..];
    if i >= n {
      Utf8HasNoRun(t, i - n);
      assert t[i - n] == s[i] && t[i - n + 1] == s[i + 1] && t[i - n + 2] == s[i + 2] && t[i - n + 3] == s[i + 3];
    } else if i > 0 {
      assert t[0] == s[n];
      assert SequenceLength(t[0]) > 0;
    }
  }

  lemma {:induction false} Utf8Advances(s: string, start: nat)
    requires start <= |s| && Utf8(s)
    ensures Advances(s, start)
    decreases |s| - start
  {
    var end := WindowEnd(start);
    if end < |s| {
      var c := Cut(s, start, end);
      Utf8HasNoRun(s, start + 1);
      Utf8Advances(s, c);
    }
  }

  // A window that is continuation octets throughout, with more behind it.
  predicate WholeWindow(s: string, q: nat) {
    WindowEnd(q) < |s| && forall k | q < k <= WindowEnd(q) :: IsContinuation(s[k])
  }

  lemma {:induction false} NoWindowAdvances(s: string, start: nat)
    requires start <= |s| && forall q: nat :: !WholeWindow(s, q)
    ensures Advances(s, start)
    decreases |s| - start
  {
    if WindowEnd(start) < |s| {
      var c := Cut(s, start, WindowEnd(start));
      assert c == start ==> WholeWindow(s, start);
      NoWindowAdvances(s, c);
    }
  }

  // A cut before such a window never gets past where it begins.
  lemma {:induction false} WindowStalls(s: string, start: nat, q: nat)
    requires start <= q && WholeWindow(s, q)
    ensures !Advances(s, start)
    decreases q - start
  {
    var c := Cut(s, start, WindowEnd(start));
    if c > start {
      WindowStalls(s, c, q);
    }
  }

  // Fold ends on a line, valid UTF-8 or not, if and only if no window of it
  // is continuation octets throughout.
  lemma FoldTerminatesExactly(s: string)
    ensures FoldTerminates(s) <==> forall q: nat :: !WholeWindow(s, q)
  {
    if forall q: nat :: !WholeWindow(s, q) {
      NoWindowAdvances(s, 0);
    } else {
      var q: nat :| WholeWindow(s, q);
      WindowStalls(s, 0, q);
    }
  }

  // Text that is not UTF-8 can hold fold in place for ever.
  lemma FoldCanStall()
    ensures !FoldTerminates("a" + seq(75, i => 0x80 as char))
  {
    var s := "a" + seq(75, i => 0x80 as char);
    assert forall k | 1 <= k <= 75 :: s[k] == 0x80 as char;
    var c := Cut(s, 0, WindowEnd(0));
  }

  lemma {:induction false} Utf8Concat(a: string, b: string)
    requires Utf8(a) && Utf8(b)
    ensures Utf8(a + b)
    decreases |a|
  {
    if a == "" {
      assert a + b == b;
    } else {
      var n := SequenceLength(a[0]);
      assert (a + b)[n..] == a[n..] + b;
      assert forall k | 0 <= k < n :: (a + b)[k] == a[k];
      Utf8Concat(a[n..], b);
    }
  }
}
