// Components and direct membership: the stack scan and the depth counter
// agree. internal/contentline/contentline.go:108-156
module Brackets {
  import opened Documents

  lemma {:induction false} DepthSplit(lines: seq<Line>, a: nat, b: nat, c: nat)
    requires a <= b <= c <= |lines|
    ensures Depth(lines, a, c) == Depth(lines, a, b) + Depth(lines, b, c)
    decreases c
  {
    if b < c {
      DepthSplit(lines, a, b, c - 1);
    }
  }

  // Depth depends only on the names in its range.
  lemma {:induction false} DepthSame(x: seq<Line>, i: nat, y: seq<Line>, j: nat, n: nat)
    requires i + n <= |x| && j + n <= |y|
    requires forall k | i <= k < i + n :: Bracket(x[k]) == Bracket(y[k - i + j])
    ensures Depth(x, i, i + n) == Depth(y, j, j + n)
  {
    if n > 0 {
      DepthSame(x, i, y, j, n - 1);
      assert Bracket(x[i + n - 1]) == Bracket(y[j + n - 1]);
    }
  }

  lemma {:induction false} DepthAlike(x: seq<Line>, y: seq<Line>, from: nat, to: nat)
    requires to <= |x| && to <= |y| && forall k | from <= k < to :: Bracket(x[k]) == Bracket(y[k])
    ensures Depth(x, from, to) == Depth(y, from, to)
  {
    if from < to {
      DepthAlike(x, y, from, to - 1);
    }
  }

  lemma DepthAppend(s: seq<Line>, l: Line)
    ensures Depth(s + [l], 0, |s| + 1) == Depth(s, 0, |s|) + Bracket(l)
  {
    DepthSame(s, 0, s + [l], 0, |s|);
  }

  // Two components either nest or are apart.
  lemma NestedOrApart(lines: seq<Line>, b: nat, e: nat, c: nat, f: nat)
    requires Matched(lines, b, e) && Matched(lines, c, f) && b < c
    ensures e < c || f < e
  {
    if c < e {
      DepthSplit(lines, b + 1, c, e + 1);
      DepthSplit(lines, c, c + 1, e + 1);
      assert DepthSince(lines, b, c) >= 0 && DepthSince(lines, b, e) == 0;
      assert DepthSince(lines, c, e + 1) <= -2;
    }
  }

  // A line is directly in a component exactly when no component nested in it
  // has opened before the line and closes at or after it.
  lemma ContainsIff(lines: seq<Line>, span: Span, i: nat)
    requires 0 <= span.begin && 0 <= span.end && Matched(lines, span.begin, span.end) && i <= |lines|
    ensures Contains(lines, span, i) <==>
            span.begin < i < span.end &&
            forall b: nat, e: nat | span.begin < b && Matched(lines, b, e) :: !(b < i <= e)
  {
    var a: nat := span.begin;
    if a < i < span.end {
      if Depth(lines, a + 1, i) == 0 {
        forall b: nat, e: nat | a < b && Matched(lines, b, e)
          ensures !(b < i <= e)
        {
          if b < i <= e {
            OpenInside(lines, a, b, i);
          }
        }
      } else {
        assert DepthSince(lines, a, i) > 0;
        var b := OpenBefore(lines, a + 1, i);
        var e := CloseAfter(lines, a, span.end, b, i);
        assert Matched(lines, b, e) && b < i <= e;
      }
    }
  }

  lemma OpenInside(lines: seq<Line>, a: nat, b: nat, i: nat)
    requires a < b < i <= |lines| && IsBegin(lines[b])
    requires NeverCloses(lines, a, i) && NeverCloses(lines, b, i)
    ensures Depth(lines, a + 1, i) > 0
  {
    DepthSplit(lines, a + 1, b, i);
    DepthSplit(lines, b, b + 1, i);
    assert DepthSince(lines, a, b) >= 0 && DepthSince(lines, b, i) >= 0;
  }

  // Where the depth is positive, some BEGIN line is still open.
  lemma OpenBefore(lines: seq<Line>, a: nat, i: nat) returns (b: nat)
    requires a <= i <= |lines| && Depth(lines, a, i) > 0
    ensures a <= b < i && IsBegin(lines[b])
    ensures Depth(lines, b + 1, i) == 0 && NeverCloses(lines, b, i)
    ensures Depth(lines, a, b + 1) == Depth(lines, a, i)
  {
    var d := Depth(lines, a, i);
    b := i - 1;
    while Depth(lines, a, b) >= d
      invariant a <= b < i
      invariant forall k | b < k <= i :: Depth(lines, a, k) >= d
      decreases b
    {
      b := b - 1;
    }
    assert Depth(lines, a, b + 1) >= d;
    forall k | b < k <= i ensures DepthSince(lines, b, k) == Depth(lines, a, k) - d {
      DepthSplit(lines, a, b + 1, k);
    }
  }

  // A BEGIN line still open inside a component closes before its END.
  lemma CloseAfter(lines: seq<Line>, a: nat, z: nat, b: nat, i: nat) returns (e: nat)
    requires Matched(lines, a, z) && a < b < i <= z && IsBegin(lines[b])
    requires NeverCloses(lines, b, i)
    ensures i <= e < z && Matched(lines, b, e)
  {
    DepthSplit(lines, a + 1, b, z);
    DepthSplit(lines, b, b + 1, z);
    assert DepthSince(lines, a, b) >= 0;
    assert DepthSince(lines, b, z) < 0;
    e := i;
    while DepthSince(lines, b, e + 1) >= 0
      invariant i <= e < z
      invariant NeverCloses(lines, b, e)
      decreases z - e
    {
      e := e + 1;
    }
    assert DepthSince(lines, b, e) >= 0;
  }
}
