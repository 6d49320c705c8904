// Answering a ranged calendar query: narrowed by the index, then confirmed by
// expansion. internal/dav/caldav.go:166-206, internal/storage/objects.go:167-194
module Query {
  import opened Text
  import Storage
  import opened Recurrence

  // What a decoder makes of stored bytes, where it makes anything of them.
  type Decoder = string -> Option<Calendar>

  // ------------------------------------------------------------------ the index

  // The condition of the database query.
  predicate Shortlisted(start: Option<int>, end: Option<int>, from: int, to: int) {
    start.None? || (start.value < to && (end.None? || end.value > from))
  }

  predicate Listed(o: Storage.Object, from: int, to: int) {
    Shortlisted(o.payload.start, o.payload.end, from, to)
  }

  // Where the index hides an object that has an instance in the range. One
  // with a rule that ends: when its bounds end just where the range begins.
  // One whose rule goes on: when it starts too late. One without a master:
  // when its first override is elsewhere.
  lemma HiddenExactly(cal: Calendar, from: int, to: int, inst: Instance)
    requires ReturnedBy(cal, from, to, inst)
    ensures cal.master.None? ==> cal.overrides != []
    ensures var b := Summary(cal);
            Shortlisted(b.start, b.end, from, to) <==>
            match cal.master
            case None => cal.overrides[0].start < to && cal.overrides[0].end > from
            case Some(m) => if Ends(m) then b.end != Some(from) else m.start < to
    ensures cal.master.Some? && Ends(cal.master.value) && Summary(cal).end == Some(from) ==> inst.start == inst.end == from
  {
    ReturnedIfYielded(cal, from, to, inst);
    if cal.master.Some? && Ends(cal.master.value) {
      SummaryCovers(cal, from, to, inst);
    }
  }

  // The bounds hold an instance: whatever range it overlaps, they meet it. An
  // instance without length has to lie before their end.
  predicate Holds(b: Span, inst: Instance) {
    b.start.Some? ==>
      b.start.value <= inst.start &&
      (b.end.Some? ==> if inst.start == inst.end then inst.end < b.end.value else inst.end <= b.end.value)
  }

  lemma HoldsExactly(b: Span, inst: Instance)
    ensures (forall from, to | Overlaps(inst, from, to) :: Shortlisted(b.start, b.end, from, to)) <==> Holds(b, inst)
  {
    if !Holds(b, inst) {
      var from, to := Barely(b, inst);
      assert Overlaps(inst, from, to) && !Shortlisted(b.start, b.end, from, to);
    }
  }

  // A range the instance overlaps and the bounds miss.
  lemma Barely(b: Span, inst: Instance) returns (from: int, to: int)
    requires !Holds(b, inst)
    ensures Overlaps(inst, from, to) && !Shortlisted(b.start, b.end, from, to)
  {
    if inst.start == inst.end {
      from, to := inst.start, inst.start + 1;
    } else {
      from, to := inst.end - 1, inst.start + 1;
    }
  }

  // No range hides an object if and only if its bounds hold each instance it
  // yields.
  lemma NeverHiddenExactly(cal: Calendar)
    ensures (forall from, to, inst | ReturnedBy(cal, from, to, inst) ::
               Shortlisted(Summary(cal).start, Summary(cal).end, from, to)) <==>
            (forall inst | Yields(cal, inst) :: Holds(Summary(cal), inst))
  {
    var b := Summary(cal);
    forall from, to, inst ensures ReturnedBy(cal, from, to, inst) <==> Yields(cal, inst) && Overlaps(inst, from, to) {
      ReturnedIfYielded(cal, from, to, inst);
    }
    forall inst | Yields(cal, inst)
      ensures Holds(b, inst) <==> forall from, to | ReturnedBy(cal, from, to, inst) :: Shortlisted(b.start, b.end, from, to)
    {
      HoldsExactly(b, inst);
    }
  }

  // Which instances they hold: those of a rule that ends all but one without
  // length at their end, those of a rule that goes on which do not come before
  // the first occurrence, and without a master those within the first override.
  lemma HoldsByKind(cal: Calendar, inst: Instance)
    requires Yields(cal, inst)
    ensures cal.master.None? ==> cal.overrides != []
    ensures Holds(Summary(cal), inst) <==>
            match cal.master
            case None =>
              cal.overrides[0].start <= inst.start && inst.end <= cal.overrides[0].end &&
              !(inst.start == inst.end == cal.overrides[0].end)
            case Some(m) =>
              if Ends(m) then !(inst.start == inst.end && Summary(cal).end == Some(inst.end)) else inst.start >= m.start
  {
    if cal.master.Some? && Ends(cal.master.value) {
      var from, to := if inst.start == inst.end then inst.start else inst.end - 1, inst.start + 1;
      ReturnedIfYielded(cal, from, to, inst);
      SummaryCovers(cal, from, to, inst);
    }
  }

  // Without a master only the first override is indexed. No range hides the
  // object if and only if each override that counts lies within the first.
  lemma FirstMustCover(cal: Calendar)
    requires cal.master.None? && cal.overrides != []
    ensures (forall from, to, inst | ReturnedBy(cal, from, to, inst) ::
               Shortlisted(Summary(cal).start, Summary(cal).end, from, to)) <==>
            (forall i | 0 <= i < |cal.overrides| && Latest(cal, i) ::
               var first, o := cal.overrides[0], cal.overrides[i];
               first.start <= o.start && o.end <= first.end && !(o.start == o.end == first.end))
  {
    NeverHiddenExactly(cal);
    forall i | 0 <= i < |cal.overrides| && Latest(cal, i) ensures Yields(cal, Replacement(cal.overrides[i])) {
      assert StandsIn(cal, Replacement(cal.overrides[i]));
    }
    assert forall inst | Yields(cal, inst) ::
        exists i | 0 <= i < |cal.overrides| :: Latest(cal, i) && inst == Replacement(cal.overrides[i]);
    if forall inst | Yields(cal, inst) :: Holds(Summary(cal), inst) {
      forall i | 0 <= i < |cal.overrides| && Latest(cal, i) ensures Holds(Summary(cal), Replacement(cal.overrides[i])) {
        assert Yields(cal, Replacement(cal.overrides[i]));
      }
    }
  }

  // The bounds reach an instance from this instant on: like holding it, but
  // one without length may lie at their end anywhere else.
  predicate InReach(cal: Calendar, from: int, inst: Instance) {
    match cal.master
    case None =>
      (cal.overrides != [] ==> cal.overrides[0].start <= inst.start && inst.end <= cal.overrides[0].end) &&
      !(inst.start == inst.end == from)
    case Some(m) =>
      if Ends(m) then !(inst.start == inst.end == from && Summary(cal).end == Some(from)) else inst.start >= m.start
  }

  ghost predicate Reaching(cal: Calendar, from: int) { forall inst | Yields(cal, inst) :: InReach(cal, from, inst) }

  lemma ReachingIsListed(cal: Calendar, from: int, to: int, inst: Instance)
    requires Reaching(cal, from) && ReturnedBy(cal, from, to, inst)
    ensures Shortlisted(Summary(cal).start, Summary(cal).end, from, to)
  {
    ReturnedIfYielded(cal, from, to, inst);
    HiddenExactly(cal, from, to, inst);
    assert InReach(cal, from, inst);
  }

  // An event that ends where the range begins is in reach, however it recurs
  // and whatever overrides it, as long as none of it is without length there.
  lemma EndingAtFromReaches(cal: Calendar, from: int)
    requires cal.master.Some? && Ends(cal.master.value) && cal.master.value.start != cal.master.value.end
    requires forall i | 0 <= i < |cal.overrides| :: !(cal.overrides[i].start == cal.overrides[i].end == from)
    ensures Reaching(cal, from)
  {
  }

  // With no master the second override can be hidden, whatever the range.
  lemma SecondOverrideHidden(from: int, to: int)
    requires from < to
    ensures var cal := Calendar(None, [Override(1, to, to + 1), Override(2, from, to)]);
            ReturnedBy(cal, from, to, Instance(from, to, 2, true)) &&
            !Shortlisted(Summary(cal).start, Summary(cal).end, from, to)
  {
    var overrides := [Override(1, to, to + 1), Override(2, from, to)];
    var cal := Calendar(None, overrides);
    assert Latest(cal, 1) && overrides[1] == Override(2, from, to);
    StandsInIsById(cal, Instance(from, to, 2, true));
  }

  // A series without end whose only exception was moved to long before it is
  // hidden where the exception is.
  lemma EarlierOverrideHidden(start: int, end: int)
    requires start < end < 1000
    ensures var endless := Series((k: nat) => 1000 + 100000 * k, None, false);
            var cal := Calendar(Some(Master(1000, 1001, w => w, Some(endless))), [Override(1000, start, end)]);
            WellFormed(cal) && ReturnedBy(cal, start, end, Instance(start, end, 1000, true)) &&
            !Shortlisted(Summary(cal).start, Summary(cal).end, start, end)
  {
    var endless := Series((k: nat) => 1000 + 100000 * k, None, false);
    var cal := Calendar(Some(Master(1000, 1001, w => w, Some(endless))), [Override(1000, start, end)]);
    assert Latest(cal, 0) && Instance(start, end, 1000, true) == Replacement(cal.overrides[0]);
    StandsInIsById(cal, Instance(start, end, 1000, true));
  }

  // And an event without length is hidden from a range that begins with it.
  lemma PointHidden(from: int, to: int)
    requires from < to
    ensures var cal := Calendar(Some(Master(from, from, w => w, None)), []);
            ReturnedBy(cal, from, to, Instance(from, from, 0, false)) &&
            !Shortlisted(Summary(cal).start, Summary(cal).end, from, to)
  {
    var m := Master(from, from, w => w, None);
    OverlappingHolds(m, from, to, 0, Base(m));
    assert Found(m, from, to, 0) && Occurrence(m, 0) == Base(m);
  }

  // ------------------------------------------------------------------ the query

  // Stored bytes that decode to an object with an instance in the range.
  // Bytes that do not decode match nothing.
  ghost predicate Matches(decode: Decoder, o: Storage.Object, from: int, to: int) {
    decode(o.payload.raw).Some? &&
    exists inst :: ReturnedBy(decode(o.payload.raw).value, from, to, inst)
  }

  // The same of the instances an expansion is expected to hold.
  ghost predicate Wanted(decode: Decoder, o: Storage.Object, from: int, to: int) {
    decode(o.payload.raw).Some? && exists inst :: Expected(decode(o.payload.raw).value, from, to, inst)
  }

  lemma MatchesIsWanted(decode: Decoder, o: Storage.Object, from: int, to: int)
    ensures Matches(decode, o, from, to) <==> Wanted(decode, o, from, to)
  {
    if decode(o.payload.raw).Some? {
      var cal := decode(o.payload.raw).value;
      ReturnedIsExpected(cal, from, to);
      assert forall inst :: ReturnedBy(cal, from, to, inst) <==> Expected(cal, from, to, inst);
    }
  }

  ghost predicate Decodes(decode: Decoder) {
    forall raw | decode(raw).Some? :: WellFormed(decode(raw).value)
  }

  ghost function Matching(decode: Decoder, objects: seq<Storage.Object>, from: int, to: int): seq<Storage.Object> {
    if objects == [] then []
    else
      var n := |objects| - 1;
      var front := Matching(decode, objects[..n], from, to);
      if Matches(decode, objects[n], from, to) then front + [objects[n]] else front
  }

  function Shortlist(objects: seq<Storage.Object>, from: int, to: int): seq<Storage.Object> {
    if objects == [] then []
    else
      var n := |objects| - 1;
      var front := Shortlist(objects[..n], from, to);
      if Listed(objects[n], from, to) then front + [objects[n]] else front
  }

  method OccursInRange(decode: Decoder, o: Storage.Object, from: int, to: int) returns (ok: bool)
    requires Decodes(decode)
    ensures ok == Matches(decode, o, from, to)
    ensures ok == Wanted(decode, o, from, to)
  {
    MatchesIsWanted(decode, o, from, to);
    var cal := decode(o.payload.raw);
    if cal.None? {
      return false;
    }
    var instances := Expand(cal.value, from, to);
    if |instances| > 0 {
      assert instances[0] in instances && ReturnedBy(cal.value, from, to, instances[0]);
      return true;
    }
    return false;
  }

  // Keeps the matching objects at the front of the array they were read into.
  method KeepMatching(a: array<Storage.Object>, decode: Decoder, from: int, to: int) returns (kept: nat)
    requires Decodes(decode)
    modifies a
    ensures kept <= a.Length && a[..kept] == Matching(decode, old(a[..]), from, to)
  {
    ghost var was := a[..];
    kept := 0;
    var i := 0;
    while i < a.Length
      invariant kept <= i <= a.Length && HalfDone(a[..], Matching(decode, was[..i], from, to), was, kept, i)
    {
      ghost var front := Matching(decode, was[..i], from, to);
      NextOf(a[..], front, was, kept, i);
      MatchingAppend(decode, was[..i], was[i], from, to);
      var ok := OccursInRange(decode, a[i], from, to);
      if ok {
        ghost var before := a[..];
        a[kept] := a[i];
        KeptOne(before, front, was, kept, i);
        assert a[..] == before[kept := was[i]];
        kept := kept + 1;
      }
      i := i + 1;
    }
    assert was[..a.Length] == was;
  }

  // The array half way: what is kept is at its front, and what is still to be
  // looked at is as it was read.
  predicate HalfDone(now: seq<Storage.Object>, front: seq<Storage.Object>, was: seq<Storage.Object>, kept: nat, i: nat) {
    kept <= i <= |now| == |was| && now[..kept] == front && now[i..] == was[i..]
  }

  lemma NextOf(now: seq<Storage.Object>, front: seq<Storage.Object>, was: seq<Storage.Object>, kept: nat, i: nat)
    requires i < |was| && HalfDone(now, front, was, kept, i)
    ensures now[i] == was[i] && was[..i + 1] == was[..i] + [was[i]] && HalfDone(now, front, was, kept, i + 1)
  {
    assert now[i] == now[i..][0] && was[i] == was[i..][0];
    assert now[i..][1..] == now[i + 1..] && was[i..][1..] == was[i + 1..];
  }

  lemma KeptOne(now: seq<Storage.Object>, front: seq<Storage.Object>, was: seq<Storage.Object>, kept: nat, i: nat)
    requires i < |was| && HalfDone(now, front, was, kept, i + 1) && kept <= i
    ensures HalfDone(now[kept := was[i]], front + [was[i]], was, kept + 1, i + 1)
  {
  }

  // The objects of a calendar in the range, from rows ordered by name.
  method QueryCalendarObjects(rows: seq<Storage.Object>, decode: Decoder, from: int, to: int) returns (matched: seq<Storage.Object>)
    requires Decodes(decode)
    ensures matched == Matching(decode, Shortlist(rows, from, to), from, to)
  {
    var listed := Shortlist(rows, from, to);
    var a := new Storage.Object[|listed|](i requires 0 <= i < |listed| => listed[i]);
    assert a[..] == listed;
    var kept := KeepMatching(a, decode, from, to);
    matched := a[..kept];
  }

  // Among others an object is in the answer or not by itself, and those that
  // are stand as they stood.
  lemma {:induction false} AnswerKeeps(decode: Decoder, a: seq<Storage.Object>, o: Storage.Object, b: seq<Storage.Object>, from: int, to: int)
    ensures Matching(decode, [], from, to) == []
    ensures Matching(decode, a + [o] + b, from, to) ==
            Matching(decode, a, from, to) + (if Wanted(decode, o, from, to) then [o] else []) + Matching(decode, b, from, to)
    decreases |b|
  {
    if b == [] {
      assert a + [o] + b == a + [o];
      MatchesIsWanted(decode, o, from, to);
      MatchingAppend(decode, a, o, from, to);
      NothingBehind(Matching(decode, a, from, to), o);
    } else {
      var n := |b| - 1;
      var front, last := b[..n], b[n];
      AnswerKeeps(decode, a, o, front, from, to);
      OneBehind(a + [o], b);
      MatchingAppend(decode, a + [o] + front, last, from, to);
      LastBehind(Matching(decode, a, from, to), if Wanted(decode, o, from, to) then [o] else [], Matching(decode, front, from, to), last);
    }
  }

  lemma LastBehind(a: seq<Storage.Object>, b: seq<Storage.Object>, c: seq<Storage.Object>, last: Storage.Object)
    ensures a + b + (c + [last]) == (a + b + c) + [last]
  {
  }

  lemma NothingBehind(a: seq<Storage.Object>, o: Storage.Object)
    ensures a + [o] + [] == a + [o] && a + [] + [] == a
  {
  }

  lemma OneBehind(a: seq<Storage.Object>, b: seq<Storage.Object>)
    requires b != []
    ensures a + b == a + b[..|b| - 1] + [b[|b| - 1]]
  {
  }

  ghost predicate NoneHidden(decode: Decoder, rows: seq<Storage.Object>, from: int, to: int) {
    forall i | 0 <= i < |rows| :: Matches(decode, rows[i], from, to) ==> Listed(rows[i], from, to)
  }

  // Narrowing by the index changes the answer if and only if it hides a match.
  lemma {:induction false} NarrowingExact(decode: Decoder, rows: seq<Storage.Object>, from: int, to: int)
    ensures Matching(decode, Shortlist(rows, from, to), from, to) == Matching(decode, rows, from, to) <==>
            NoneHidden(decode, rows, from, to)
    ensures |Matching(decode, Shortlist(rows, from, to), from, to)| <= |Matching(decode, rows, from, to)|
    ensures |Matching(decode, Shortlist(rows, from, to), from, to)| == |Matching(decode, rows, from, to)| ==>
              NoneHidden(decode, rows, from, to)
  {
    if rows != [] {
      var n := |rows| - 1;
      var front := rows[..n];
      NarrowingExact(decode, front, from, to);
      HiddenStep(decode, rows, from, to);
      if Listed(rows[n], from, to) {
        MatchingAppend(decode, Shortlist(front, from, to), rows[n], from, to);
      }
    }
  }

  lemma HiddenStep(decode: Decoder, rows: seq<Storage.Object>, from: int, to: int)
    requires rows != []
    ensures var n := |rows| - 1;
            NoneHidden(decode, rows, from, to) <==>
            NoneHidden(decode, rows[..n], from, to) && (Matches(decode, rows[n], from, to) ==> Listed(rows[n], from, to))
  {
    var front := rows[..|rows| - 1];
    assert forall i | 0 <= i < |front| :: front[i] == rows[i];
  }

  lemma MatchingAppend(decode: Decoder, objects: seq<Storage.Object>, o: Storage.Object, from: int, to: int)
    ensures Matching(decode, objects + [o], from, to) ==
            if Matches(decode, o, from, to) then Matching(decode, objects, from, to) + [o] else Matching(decode, objects, from, to)
  {
    assert (objects + [o])[..|objects|] == objects;
  }

  // The columns are those derived from the bytes when they were written.
  predicate IndexedPayload(decode: Decoder, p: Storage.Payload) {
    decode(p.raw).Some? ==>
      var b := Summary(decode(p.raw).value);
      p.start == b.start && p.end == b.end
  }

  predicate Indexed(decode: Decoder, o: Storage.Object) { IndexedPayload(decode, o.payload) }

  predicate AllIndexed(decode: Decoder, s: Storage.State) { forall k | k in s.objects :: Indexed(decode, s.objects[k]) }

  // Where every write brings the columns of its bytes, so has every object in
  // every reachable state, those rewritten with the bytes they had included.
  lemma {:induction false} RunIsIndexed(decode: Decoder, hash: Storage.Hash, writes: seq<Storage.Write>)
    requires forall i | 0 <= i < |writes| && writes[i].Put? :: IndexedPayload(decode, writes[i].p)
    ensures AllIndexed(decode, Storage.Run(hash, writes))
    decreases |writes|
  {
    if writes != [] {
      var before := writes[..|writes| - 1];
      assert forall i | 0 <= i < |before| :: before[i] == writes[i];
      RunIsIndexed(decode, hash, before);
      StaysIndexed(decode, Storage.Run(hash, before), hash, writes[|writes| - 1]);
    }
  }

  lemma StaysIndexed(decode: Decoder, s: Storage.State, hash: Storage.Hash, w: Storage.Write)
    requires AllIndexed(decode, s) && (w.Put? ==> IndexedPayload(decode, w.p))
    ensures AllIndexed(decode, Storage.Execute(s, hash, w))
  {
    var next := Storage.Execute(s, hash, w);
    forall k | k in next.objects ensures Indexed(decode, next.objects[k]) {
      if k in s.objects && next.objects[k] == s.objects[k] {
        assert Indexed(decode, s.objects[k]);
      } else {
        assert w.Put? && next.objects[k] == Storage.Object(w.p, hash(w.p.raw));
      }
    }
  }

  // The index never hides a match: a query answers as if it had expanded
  // every object stored.
  lemma IndexHidesNothing(decode: Decoder, rows: seq<Storage.Object>, from: int, to: int)
    requires forall i | 0 <= i < |rows| :: Indexed(decode, rows[i])
    requires forall i | 0 <= i < |rows| && Matches(decode, rows[i], from, to) :: Reaching(decode(rows[i].payload.raw).value, from)
    ensures Matching(decode, Shortlist(rows, from, to), from, to) == Matching(decode, rows, from, to)
  {
    forall i | 0 <= i < |rows| && Matches(decode, rows[i], from, to) ensures Listed(rows[i], from, to) {
      var cal := decode(rows[i].payload.raw).value;
      var inst :| ReturnedBy(cal, from, to, inst);
      ReachingIsListed(cal, from, to, inst);
      assert Indexed(decode, rows[i]);
    }
    NarrowingExact(decode, rows, from, to);
  }

  // The rows of a state are objects it holds.
  predicate RowsOf(s: Storage.State, rows: seq<Storage.Object>) {
    forall i | 0 <= i < |rows| :: Stored(s, rows[i])
  }

  predicate Stored(s: Storage.State, o: Storage.Object) { exists k :: k in s.objects && s.objects[k] == o }

  // So it is in every reachable state.
  lemma QueryAfterRun(decode: Decoder, hash: Storage.Hash, writes: seq<Storage.Write>, rows: seq<Storage.Object>, from: int, to: int)
    requires forall i | 0 <= i < |writes| && writes[i].Put? :: IndexedPayload(decode, writes[i].p)
    requires RowsOf(Storage.Run(hash, writes), rows)
    requires forall i | 0 <= i < |rows| && Matches(decode, rows[i], from, to) :: Reaching(decode(rows[i].payload.raw).value, from)
    ensures Matching(decode, Shortlist(rows, from, to), from, to) == Matching(decode, rows, from, to)
  {
    RunIsIndexed(decode, hash, writes);
    forall i | 0 <= i < |rows| ensures Indexed(decode, rows[i]) {
      assert Stored(Storage.Run(hash, writes), rows[i]);
    }
    IndexHidesNothing(decode, rows, from, to);
  }
}
