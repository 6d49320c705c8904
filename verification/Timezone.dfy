// The offsets of a time zone that a calendar object defines itself.
// internal/recurrence/timezone.go:128-210
module Timezones {
  import opened Text

  // A yearly rule, through the two things asked of it: whether it falls on a
  // wall time, and on which wall times between two bounds.
  datatype Rule = Rule(falls: int -> bool, between: (int, int) -> seq<int>)

  // One block of a zone: from its transitions on the zone keeps one offset,
  // and before them it kept another. Offsets are seconds east of UTC.
  datatype Observance = Observance(start: int, offsetFrom: int, offsetTo: int, rule: Option<Rule>, rdates: seq<int>)

  // Three years back and one year ahead, as the calendar counts them.
  datatype Clock = Clock(back: int -> int, ahead: int -> int)

  // An instant at which a zone changes its offset.
  datatype Transition = Transition(at: int, before: int, after: int)

  ghost predicate Lawful(rule: Rule) {
    forall from: int, to: int, x: int :: x in rule.between(from, to) <==> from <= x <= to && rule.falls(x)
  }

  ghost predicate LawfulRules(obs: seq<Observance>) {
    forall i | 0 <= i < |obs| && obs[i].rule.Some? :: Lawful(obs[i].rule.value)
  }

  // A transition's wall time is in the offset it ends.
  function Change(o: Observance, wall: int): Transition { Transition(wall - o.offsetFrom, o.offsetFrom, o.offsetTo) }

  // A transition of the zone is a wall time on which one of its blocks falls,
  // read in the offset that ends there.
  predicate FallsOn(o: Observance, wall: int) {
    wall == o.start || wall in o.rdates || (o.rule.Some? && o.rule.value.falls(wall))
  }

  // One that the search for an instant looks at: rules are followed only
  // between the bounds.
  predicate LooksAt(o: Observance, from: int, to: int, wall: int) {
    wall == o.start || wall in o.rdates || (o.rule.Some? && o.rule.value.falls(wall) && from <= wall <= to)
  }

  ghost predicate Complete(obs: seq<Observance>, t: Transition) {
    exists i, wall :: 0 <= i < |obs| && FallsOn(obs[i], wall) &&
                      t == Transition(wall - obs[i].offsetFrom, obs[i].offsetFrom, obs[i].offsetTo)
  }

  ghost predicate Windowed(obs: seq<Observance>, from: int, to: int, t: Transition) {
    exists i, wall :: 0 <= i < |obs| && LooksAt(obs[i], from, to, wall) && t == Change(obs[i], wall)
  }

  // An offset answers for an instant: it is what the latest transition up to
  // then led to, or what the earliest came from when all lie behind.
  ghost predicate Answers(transit: Transition -> bool, instant: int, offset: int) {
    if exists t {:trigger transit(t)} :: transit(t) && t.at <= instant then exists t {:trigger LatestBy(transit, instant, t)} :: LatestBy(transit, instant, t) && t.after == offset
    else exists t {:trigger EarliestOf(transit, t)} :: EarliestOf(transit, t) && t.before == offset
  }

  ghost predicate LatestBy(transit: Transition -> bool, instant: int, t: Transition) {
    transit(t) && t.at <= instant && forall u {:trigger transit(u)} | transit(u) && u.at <= instant :: u.at <= t.at
  }

  ghost predicate EarliestOf(transit: Transition -> bool, t: Transition) {
    transit(t) && forall u {:trigger transit(u)} | transit(u) :: t.at <= u.at
  }

  // The offset in force at an instant, by every transition there is.
  ghost predicate InForce(obs: seq<Observance>, instant: int, offset: int) {
    Answers((t: Transition) => Complete(obs, t), instant, offset)
  }

  ghost predicate FoundInWindow(obs: seq<Observance>, from: int, to: int, instant: int, offset: int) {
    Answers((t: Transition) => Windowed(obs, from, to, t), instant, offset)
  }

  // One block without a rule: the zone is ahead by one offset until the clocks
  // that keep it show when the block begins, and by the other from then on.
  lemma OneBlock(start: int, before: int, after: int, instant: int, offset: int)
    ensures InForce([Observance(start, before, after, None, [])], instant, offset) <==>
            offset == if instant + before < start then before else after
  {
    var obs := [Observance(start, before, after, None, [])];
    var all := (t: Transition) => Complete(obs, t);
    var only := Transition(start - before, before, after);
    assert FallsOn(obs[0], start) && all(only);
    assert forall t | all(t) :: t == only;
    assert EarliestOf(all, only);
    if only.at <= instant {
      assert LatestBy(all, instant, only);
    }
  }

  // ------------------------------------------------------------------ the search

  function Changes(o: Observance, walls: seq<int>): (r: seq<Transition>)
    ensures |r| == |walls| && forall i | 0 <= i < |r| :: r[i] == Change(o, walls[i])
  {
    seq(|walls|, i requires 0 <= i < |walls| => Change(o, walls[i]))
  }

  // The wall times of a block that a search looks at.
  function Walls(o: Observance, from: int, to: int): seq<int> {
    [o.start] + o.rdates + if o.rule.Some? then o.rule.value.between(from, to) else []
  }

  // The transitions of the first n blocks that a search looks at, in the order
  // found.
  function GatheredTo(obs: seq<Observance>, n: nat, from: int, to: int): seq<Transition>
    requires n <= |obs|
  {
    if n == 0 then [] else GatheredTo(obs, n - 1, from, to) + Changes(obs[n - 1], Walls(obs[n - 1], from, to))
  }

  function Gathered(obs: seq<Observance>, from: int, to: int): seq<Transition> { GatheredTo(obs, |obs|, from, to) }

  // The first of the earliest. The zero time counts as none yet.
  function Earlier(earliest: Transition, t: Transition): Transition {
    if earliest.at == 0 || t.at < earliest.at then t else earliest
  }

  function EarliestTo(ts: seq<Transition>, n: nat): Transition
    requires n <= |ts|
  {
    if n == 0 then Transition(0, 0, 0) else Earlier(EarliestTo(ts, n - 1), ts[n - 1])
  }

  function EarliestIn(ts: seq<Transition>): Transition { EarliestTo(ts, |ts|) }

  lemma {:induction false} EarliestPrefix(a: seq<Transition>, b: seq<Transition>, n: nat)
    requires n <= |a| && n <= |b| && forall i | 0 <= i < n :: a[i] == b[i]
    ensures EarliestTo(a, n) == EarliestTo(b, n)
  {
    if n > 0 {
      EarliestPrefix(a, b, n - 1);
    }
  }

  // Of several that fall together the one found first counts.
  lemma {:induction false} EarliestIsFirst(ts: seq<Transition>, n: nat, i: nat)
    requires i < n <= |ts| && forall j | 0 <= j < n :: ts[j].at != 0
    requires forall j | 0 <= j < n :: ts[i].at <= ts[j].at && (j < i ==> ts[i].at != ts[j].at)
    ensures EarliestTo(ts, n) == ts[i]
  {
    var m := n - 1;
    if m == i {
      if m > 0 {
        var k := FirstLeast(ts, m);
        EarliestIsFirst(ts, m, k);
      }
    } else {
      EarliestIsFirst(ts, m, i);
    }
  }

  lemma {:induction false} FirstLeast(ts: seq<Transition>, n: nat) returns (i: nat)
    requires 0 < n <= |ts|
    ensures i < n && forall j | 0 <= j < n :: ts[i].at <= ts[j].at && (j < i ==> ts[i].at != ts[j].at)
  {
    if n == 1 {
      i := 0;
    } else {
      i := FirstLeast(ts, n - 1);
      if ts[n - 1].at < ts[i].at {
        i := n - 1;
      }
    }
  }

  // A transition at the zero time is forgotten: none is before it, and another
  // one is found behind it.
  predicate Forgets(ts: seq<Transition>) {
    ts != [] && ts[|ts| - 1].at != 0 && (exists t {:trigger t in ts} :: t in ts && t.at == 0) && forall t {:trigger t in ts} | t in ts :: t.at >= 0
  }

  // The search for an instant is misled: it is before the zero time, a
  // transition at that time is forgotten, and the one taken for the earliest
  // comes from another offset.
  predicate Misled(obs: seq<Observance>, clock: Clock, instant: int) {
    var ts := Gathered(obs, clock.back(instant), clock.ahead(instant));
    instant < 0 && Forgets(ts) && forall t {:trigger t in ts} | t in ts && t.at == 0 :: t.before != EarliestIn(ts).before
  }

  // What the search gives: the answer of the window, or where it is misled
  // what the zone comes from later.
  ghost predicate SearchGives(obs: seq<Observance>, clock: Clock, instant: int, offset: int) {
    var from, to := clock.back(instant), clock.ahead(instant);
    if Misled(obs, clock, instant) then offset == EarliestIn(Gathered(obs, from, to)).before
    else FoundInWindow(obs, from, to, instant, offset)
  }

  // The search: gather, sort, and take the last that is not behind the instant.
  method OffsetAt(obs: seq<Observance>, clock: Clock, instant: int) returns (offset: Option<int>)
    requires LawfulRules(obs)
    ensures offset.None? <==> obs == []
    ensures offset.Some? ==> SearchGives(obs, clock, instant, offset.value)
    ensures var ts := Gathered(obs, clock.back(instant), clock.ahead(instant));
            offset.Some? && (forall t {:trigger t in ts} | t in ts :: t.at > instant) ==> offset == Some(EarliestIn(ts).before)
    ensures offset.Some? && Steady(obs, clock, instant) && !Misled(obs, clock, instant) ==> InForce(obs, instant, offset.value)
  {
    if Steady(obs, clock, instant) && !Misled(obs, clock, instant) {
      forall o: int | SearchGives(obs, clock, instant, o) ensures InForce(obs, instant, o) {
        GivenIsInForce(obs, clock, instant, o);
      }
    }
    var from, to := clock.back(instant), clock.ahead(instant);
    var transitions: seq<Transition> := [];
    var earliest := Transition(0, 0, 0);
    var i := 0;
    while i < |obs|
      invariant 0 <= i <= |obs|
      invariant transitions == GatheredTo(obs, i, from, to) && earliest == EarliestIn(transitions)
      invariant i > 0 ==> transitions != []
    {
      var o := obs[i];
      transitions, earliest := AddAll(transitions, earliest, o, from, to);
      i := i + 1;
    }
    if |transitions| == 0 {
      return None;
    }
    var best := Latest(transitions, instant);
    offset := Some(if best.Some? then best.value.after else earliest.before);
    SearchAnswers(obs, clock, instant, transitions, best, earliest, offset.value);
  }

  method AddAll(before: seq<Transition>, first: Transition, o: Observance, from: int, to: int)
    returns (transitions: seq<Transition>, earliest: Transition)
    requires first == EarliestIn(before)
    ensures transitions == before + Changes(o, Walls(o, from, to))
    ensures earliest == EarliestIn(transitions)
  {
    transitions, earliest := Add(before, first, o, [o.start]);
    transitions, earliest := Add(transitions, earliest, o, o.rdates);
    ChangesConcat(o, [o.start], o.rdates);
    RegroupChanges(before, Changes(o, [o.start]), Changes(o, o.rdates));
    if o.rule.Some? {
      var falls := o.rule.value.between(from, to);
      transitions, earliest := Add(transitions, earliest, o, falls);
      ChangesConcat(o, [o.start] + o.rdates, falls);
      RegroupChanges(before, Changes(o, [o.start] + o.rdates), Changes(o, falls));
    } else {
      assert [o.start] + o.rdates + [] == [o.start] + o.rdates;
    }
  }

  method Add(before: seq<Transition>, first: Transition, o: Observance, walls: seq<int>)
    returns (transitions: seq<Transition>, earliest: Transition)
    requires first == EarliestIn(before)
    ensures transitions == before + Changes(o, walls) && earliest == EarliestIn(transitions)
  {
    transitions, earliest := before, first;
    var i := 0;
    while i < |walls|
      invariant 0 <= i <= |walls|
      invariant transitions == before + Changes(o, walls[..i]) && earliest == EarliestIn(transitions)
    {
      var t := Change(o, walls[i]);
      assert Changes(o, walls[..i + 1]) == Changes(o, walls[..i]) + [t];
      AppendOne(before, Changes(o, walls[..i]), t);
      EarliestPrefix(transitions, transitions + [t], |transitions|);
      transitions := transitions + [t];
      if earliest.at == 0 || t.at < earliest.at {
        earliest := t;
      }
      i := i + 1;
    }
    assert walls[..|walls|] == walls;
  }

  lemma AppendOne(a: seq<Transition>, b: seq<Transition>, t: Transition)
    ensures a + (b + [t]) == (a + b) + [t] && ((a + b) + [t])[..|a + b|] == a + b
  {
  }

  lemma ChangesConcat(o: Observance, a: seq<int>, b: seq<int>)
    ensures Changes(o, a + b) == Changes(o, a) + Changes(o, b)
  {
  }

  lemma RegroupChanges(a: seq<Transition>, b: seq<Transition>, c: seq<Transition>)
    ensures (a + b) + c == a + (b + c)
  {
  }

  // The last transition up to an instant, in a list sorted by when they are.
  method Latest(transitions: seq<Transition>, instant: int) returns (best: Option<Transition>)
    ensures best.Some? ==> best.value in transitions && best.value.at <= instant &&
                           forall u | u in transitions && u.at <= instant :: u.at <= best.value.at
    ensures best.None? ==> forall u | u in transitions :: u.at > instant
  {
    var sorted := SortByAt(transitions);
    SortKeeps(transitions);
    best := None;
    var i := 0;
    while i < |sorted|
      invariant 0 <= i <= |sorted|
      invariant best == if i == 0 then None else Some(sorted[i - 1])
      invariant i > 0 ==> sorted[i - 1].at <= instant
    {
      if sorted[i].at > instant {
        break;
      }
      best := Some(sorted[i]);
      i := i + 1;
    }
    forall u | u in transitions ensures u.at <= instant ==> best.Some? && u.at <= best.value.at {
      assert u in sorted;
    }
  }

  predicate InOrder(ts: seq<Transition>) { forall i, j | 0 <= i < j < |ts| :: ts[i].at <= ts[j].at }

  // A sort by instant, standing for the library's.
  function SortByAt(ts: seq<Transition>): seq<Transition> {
    if ts == [] then [] else InsertByAt(ts[0], SortByAt(ts[1..]))
  }

  function InsertByAt(t: Transition, ts: seq<Transition>): seq<Transition> {
    if ts == [] || t.at <= ts[0].at then [t] + ts else [ts[0]] + InsertByAt(t, ts[1..])
  }

  lemma {:induction false} SortKeeps(ts: seq<Transition>)
    ensures InOrder(SortByAt(ts)) && forall x :: x in SortByAt(ts) <==> x in ts
  {
    if ts != [] {
      SortKeeps(ts[1..]);
      InsertKeeps(ts[0], SortByAt(ts[1..]));
      assert forall x :: x in ts <==> x == ts[0] || x in ts[1..];
    }
  }

  lemma {:induction false} InsertKeeps(t: Transition, ts: seq<Transition>)
    requires InOrder(ts)
    ensures InOrder(InsertByAt(t, ts)) && forall x :: x in InsertByAt(t, ts) <==> x == t || x in ts
  {
    if ts != [] && t.at > ts[0].at {
      InsertKeeps(t, ts[1..]);
      assert forall x :: x in ts <==> x == ts[0] || x in ts[1..];
      assert forall x | x in ts[1..] :: ts[0].at <= x.at;
    }
  }

  // From the zero time on, and in a zone without a transition at it, the
  // search is right.
  lemma SearchIsRight(obs: seq<Observance>, clock: Clock, instant: int)
    requires LawfulRules(obs)
    requires instant >= 0 || !exists t :: Complete(obs, t) && t.at == 0
    ensures !Misled(obs, clock, instant)
  {
    var from, to := clock.back(instant), clock.ahead(instant);
    GatheredHolds(obs, from, to);
    forall t | t in Gathered(obs, from, to) ensures Complete(obs, t) {
      WindowedIsComplete(obs, from, to, t);
    }
  }

  // Two blocks that start once each.
  predicate StartOnce(first: Observance, second: Observance) {
    first.rule.None? && second.rule.None? && first.rdates == [] == second.rdates
  }

  // A zone whose first block starts at the zero time: before that the search
  // takes it for none yet, and gives the offset the second block ends.
  lemma ZeroIsForgotten(first: Observance, second: Observance, clock: Clock, instant: int)
    requires StartOnce(first, second) && first.offsetFrom != second.offsetFrom
    requires instant < 0 == Change(first, first.start).at < Change(second, second.start).at
    ensures Misled([first, second], clock, instant) && InForce([first, second], instant, first.offsetFrom)
    ensures SearchGives([first, second], clock, instant, second.offsetFrom)
  {
    TwoStarts(first, second, clock.back(instant), clock.ahead(instant));
    MisledByTwo([first, second], clock, instant, Change(first, first.start), Change(second, second.start));
    BeforeTwo(first, second, instant);
  }

  lemma MisledByTwo(obs: seq<Observance>, clock: Clock, instant: int, t: Transition, u: Transition)
    requires Gathered(obs, clock.back(instant), clock.ahead(instant)) == [t, u]
    requires instant < 0 == t.at < u.at && t.before != u.before
    ensures Misled(obs, clock, instant) && SearchGives(obs, clock, instant, u.before)
  {
    LaterOfTwo(t, u);
  }

  lemma LaterOfTwo(t: Transition, u: Transition)
    requires t.at == 0 < u.at
    ensures EarliestIn([t, u]) == u && Forgets([t, u])
  {
    assert EarliestTo([t, u], 1) == t && t in [t, u];
    assert [t, u][0] == t;
  }

  lemma BeforeTwo(first: Observance, second: Observance, instant: int)
    requires StartOnce(first, second)
    requires instant < Change(first, first.start).at < Change(second, second.start).at
    ensures InForce([first, second], instant, first.offsetFrom)
  {
    var obs := [first, second];
    var t := Change(first, first.start);
    var all := (x: Transition) => Complete(obs, x);
    assert obs[0] == first && FallsOn(obs[0], first.start);
    assert all(t) && EarliestOf(all, t);
  }

  lemma TwoStarts(first: Observance, second: Observance, from: int, to: int)
    requires StartOnce(first, second)
    ensures Gathered([first, second], from, to) == [Change(first, first.start), Change(second, second.start)]
  {
    var obs := [first, second];
    assert Walls(first, from, to) == [first.start] && Walls(second, from, to) == [second.start];
    assert Changes(first, [first.start]) == [Change(first, first.start)];
    assert GatheredTo(obs, 1, from, to) == [Change(first, first.start)];
    assert Changes(second, [second.start]) == [Change(second, second.start)];
  }

  lemma GatheredHolds(obs: seq<Observance>, from: int, to: int)
    requires LawfulRules(obs)
    ensures forall t :: t in Gathered(obs, from, to) <==> Windowed(obs, from, to, t)
  {
    GatheredToHolds(obs, |obs|, from, to);
    assert obs[..|obs|] == obs;
  }

  lemma {:induction false} GatheredToHolds(obs: seq<Observance>, n: nat, from: int, to: int)
    requires LawfulRules(obs) && n <= |obs|
    ensures forall t :: t in GatheredTo(obs, n, from, to) <==> Windowed(obs[..n], from, to, t)
  {
    if n > 0 {
      var o := obs[n - 1];
      GatheredToHolds(obs, n - 1, from, to);
      WallsLookedAt(o, from, to);
      assert obs[..n][..n - 1] == obs[..n - 1];
      forall t ensures t in GatheredTo(obs, n, from, to) <==> Windowed(obs[..n], from, to, t) {
        LastBlock(obs[..n], from, to, t);
        ChangeAmong(o, Walls(o, from, to), t);
      }
    }
  }

  lemma WallsLookedAt(o: Observance, from: int, to: int)
    requires o.rule.Some? ==> Lawful(o.rule.value)
    ensures forall wall :: wall in Walls(o, from, to) <==> LooksAt(o, from, to, wall)
  {
    var falls := if o.rule.Some? then o.rule.value.between(from, to) else [];
    forall wall: int ensures wall in Walls(o, from, to) <==> LooksAt(o, from, to, wall) {
      assert wall in Walls(o, from, to) <==> wall in [o.start] || wall in o.rdates || wall in falls;
      assert wall in falls <==> o.rule.Some? && from <= wall <= to && o.rule.value.falls(wall);
    }
  }

  lemma ChangeAmong(o: Observance, walls: seq<int>, t: Transition)
    ensures t in Changes(o, walls) <==> exists wall :: wall in walls && t == Change(o, wall)
  {
    if wall :| wall in walls && t == Change(o, wall) {
      var i :| 0 <= i < |walls| && walls[i] == wall;
      assert Changes(o, walls)[i] == t;
    }
  }

  lemma LastBlock(obs: seq<Observance>, from: int, to: int, t: Transition)
    requires obs != []
    ensures var n := |obs| - 1;
            Windowed(obs, from, to, t) <==>
            Windowed(obs[..n], from, to, t) || exists wall :: LooksAt(obs[n], from, to, wall) && t == Change(obs[n], wall)
  {
    var front := obs[..|obs| - 1];
    assert forall i | 0 <= i < |front| :: front[i] == obs[i];
  }

  // What the scan takes for the earliest is one if and only if it forgets none.
  lemma EarliestHolds(ts: seq<Transition>)
    ensures ts != [] ==> EarliestIn(ts) in ts && (Forgets(ts) <==> !forall t | t in ts :: EarliestIn(ts).at <= t.at)
  {
    EarliestToHolds(ts, |ts|);
    assert forall i | 0 <= i < |ts| :: ts[i] in ts;
  }

  // A time before zero is never lost again; without one, a transition at zero
  // is taken for the earliest just when it is the last seen.
  lemma {:induction false} EarliestToHolds(ts: seq<Transition>, n: nat)
    requires n <= |ts|
    ensures n > 0 ==> exists i :: 0 <= i < n && ts[i] == EarliestTo(ts, n)
    ensures (exists i :: 0 <= i < n && ts[i].at < 0) ==>
              EarliestTo(ts, n).at < 0 && forall i | 0 <= i < n :: EarliestTo(ts, n).at <= ts[i].at
    ensures (forall i | 0 <= i < n :: ts[i].at > 0) && n > 0 ==>
              EarliestTo(ts, n).at > 0 && forall i | 0 <= i < n :: EarliestTo(ts, n).at <= ts[i].at
    ensures (forall i | 0 <= i < n :: ts[i].at >= 0) && n > 0 ==> (EarliestTo(ts, n).at == 0 <==> ts[n - 1].at == 0)
  {
    if n > 0 {
      EarliestToHolds(ts, n - 1);
      assert EarliestTo(ts, n) in {ts[n - 1], EarliestTo(ts, n - 1)};
      if EarliestTo(ts, n) != ts[n - 1] {
        var i :| 0 <= i < n - 1 && ts[i] == EarliestTo(ts, n - 1);
        assert ts[i] == EarliestTo(ts, n);
      }
    }
  }

  lemma SearchAnswers(obs: seq<Observance>, clock: Clock, instant: int, transitions: seq<Transition>, best: Option<Transition>, earliest: Transition, offset: int)
    requires LawfulRules(obs) && transitions == Gathered(obs, clock.back(instant), clock.ahead(instant))
    requires best.Some? ==> best.value in transitions && best.value.at <= instant &&
                            forall u | u in transitions && u.at <= instant :: u.at <= best.value.at
    requires best.None? ==> forall u | u in transitions :: u.at > instant
    requires transitions != [] && earliest == EarliestIn(transitions)
    requires offset == if best.Some? then best.value.after else earliest.before
    ensures SearchGives(obs, clock, instant, offset)
  {
    var from, to := clock.back(instant), clock.ahead(instant);
    GatheredHolds(obs, from, to);
    EarliestHolds(transitions);
    if best.Some? {
      LatestAnswers(obs, from, to, instant, best.value);
    } else if !Forgets(transitions) {
      EarliestAnswers(obs, from, to, instant, earliest);
    } else if !Misled(obs, clock, instant) {
      var zero :| zero in transitions && zero.at == 0 && zero.before == earliest.before;
      EarliestAnswers(obs, from, to, instant, zero);
    }
  }

  lemma LatestAnswers(obs: seq<Observance>, from: int, to: int, instant: int, t: Transition)
    requires Windowed(obs, from, to, t) && t.at <= instant
    requires forall u | Windowed(obs, from, to, u) && u.at <= instant :: u.at <= t.at
    ensures FoundInWindow(obs, from, to, instant, t.after)
  {
    var transit := (u: Transition) => Windowed(obs, from, to, u);
    assert transit(t) && LatestBy(transit, instant, t);
  }

  lemma EarliestAnswers(obs: seq<Observance>, from: int, to: int, instant: int, t: Transition)
    requires Windowed(obs, from, to, t) && instant < t.at
    requires forall u | Windowed(obs, from, to, u) :: t.at <= u.at
    ensures FoundInWindow(obs, from, to, instant, t.before)
  {
    var transit := (u: Transition) => Windowed(obs, from, to, u);
    assert transit(t) && EarliestOf(transit, t);
  }

  // What the search gives answers for the instant if and only if it is not
  // misled.
  lemma SearchExact(obs: seq<Observance>, clock: Clock, instant: int, offset: int)
    requires LawfulRules(obs) && SearchGives(obs, clock, instant, offset)
    ensures FoundInWindow(obs, clock.back(instant), clock.ahead(instant), instant, offset) <==> !Misled(obs, clock, instant)
  {
    var from, to := clock.back(instant), clock.ahead(instant);
    if Misled(obs, clock, instant) {
      GatheredHolds(obs, from, to);
      ZeroIsEarliest(obs, from, to, Gathered(obs, from, to));
    }
  }

  lemma ZeroIsEarliest(obs: seq<Observance>, from: int, to: int, ts: seq<Transition>)
    requires forall t :: t in ts <==> Windowed(obs, from, to, t)
    requires Forgets(ts)
    ensures var transit := (t: Transition) => Windowed(obs, from, to, t);
            forall t :: EarliestOf(transit, t) <==> t in ts && t.at == 0
  {
    var transit := (t: Transition) => Windowed(obs, from, to, t);
    var zero :| zero in ts && zero.at == 0;
    assert transit(zero);
  }

  // ------------------------------------------------------ why a window is enough

  // The zone goes on: where a rule has fallen before the window, some block
  // falls later, inside the window and not after the instant. No rule falls
  // before its block starts, and a year is longer than any offset.
  ghost predicate Steady(obs: seq<Observance>, clock: Clock, instant: int) {
    forall i | 0 <= i < |obs| ::
      instant + obs[i].offsetFrom <= clock.ahead(instant) &&
      (obs[i].rule.Some? ==> GoesOn(obs, obs[i], obs[i].rule.value, clock, instant))
  }

  ghost predicate GoesOn(obs: seq<Observance>, o: Observance, rule: Rule, clock: Clock, instant: int) {
    forall wall: int {:trigger FallsOn(o, wall)} | FallsOn(o, wall) && rule.falls(wall) ::
      wall >= o.start && (wall < clock.back(instant) ==> FallsLater(obs, clock, instant, Change(o, wall).at))
  }

  ghost predicate FallsLater(obs: seq<Observance>, clock: Clock, instant: int, at: int) {
    exists u {:trigger Windowed(obs, clock.back(instant), clock.ahead(instant), u)} ::
      Windowed(obs, clock.back(instant), clock.ahead(instant), u) && at < u.at <= instant
  }

  // A rule that has fallen before the window falls again inside it, no later
  // than the instant.
  ghost predicate Recurs(o: Observance, rule: Rule, clock: Clock, instant: int) {
    forall wall: int | rule.falls(wall) ::
      wall >= o.start && (wall < clock.back(instant) ==> FallsAgain(o, rule, clock, instant))
  }

  ghost predicate FallsAgain(o: Observance, rule: Rule, clock: Clock, instant: int) {
    exists wall: int :: rule.falls(wall) && clock.back(instant) <= wall <= instant + o.offsetFrom
  }

  // A zone whose rules each recur within the window is steady, whatever
  // blocks it has beside them.
  lemma RecurringIsSteady(obs: seq<Observance>, clock: Clock, instant: int)
    requires forall i | 0 <= i < |obs| ::
               instant + obs[i].offsetFrom <= clock.ahead(instant) &&
               (obs[i].rule.Some? ==> Recurs(obs[i], obs[i].rule.value, clock, instant))
    ensures Steady(obs, clock, instant)
  {
    forall i | 0 <= i < |obs| && obs[i].rule.Some?
      ensures GoesOn(obs, obs[i], obs[i].rule.value, clock, instant)
    {
      RecurringGoesOn(obs, i, clock, instant);
    }
  }

  lemma RecurringGoesOn(obs: seq<Observance>, i: nat, clock: Clock, instant: int)
    requires i < |obs| && obs[i].rule.Some? && instant + obs[i].offsetFrom <= clock.ahead(instant)
    requires Recurs(obs[i], obs[i].rule.value, clock, instant)
    ensures GoesOn(obs, obs[i], obs[i].rule.value, clock, instant)
  {
    var o, from, to := obs[i], clock.back(instant), clock.ahead(instant);
    forall wall: int | o.rule.value.falls(wall) && wall < from ensures FallsLater(obs, clock, instant, Change(o, wall).at) {
      var next: int :| o.rule.value.falls(next) && from <= next <= instant + o.offsetFrom;
      assert LooksAt(o, from, to, next) && Windowed(obs, from, to, Change(o, next));
    }
  }

  lemma WindowedIsComplete(obs: seq<Observance>, from: int, to: int, t: Transition)
    requires Windowed(obs, from, to, t)
    ensures Complete(obs, t)
  {
    var i, wall :| 0 <= i < |obs| && LooksAt(obs[i], from, to, wall) && t == Change(obs[i], wall);
    assert FallsOn(obs[i], wall);
  }

  // Up to the instant, the window misses a transition only where it has a
  // later one.
  lemma MissedIsPassed(obs: seq<Observance>, clock: Clock, instant: int, t: Transition)
    requires Steady(obs, clock, instant) && Complete(obs, t) && t.at <= instant
    ensures Windowed(obs, clock.back(instant), clock.ahead(instant), t) ||
            exists u :: Windowed(obs, clock.back(instant), clock.ahead(instant), u) && t.at < u.at <= instant
  {
    var from, to := clock.back(instant), clock.ahead(instant);
    var i, wall :| 0 <= i < |obs| && FallsOn(obs[i], wall) &&
                   t == Transition(wall - obs[i].offsetFrom, obs[i].offsetFrom, obs[i].offsetTo);
    var o := obs[i];
    assert t == Change(o, wall);
    assert instant + o.offsetFrom <= to;
    if !LooksAt(o, from, to, wall) {
      assert GoesOn(obs, o, o.rule.value, clock, instant) && wall < from;
      assert FallsLater(obs, clock, instant, t.at);
    }
  }

  // And no block starts later than it falls.
  lemma StartIsFirst(obs: seq<Observance>, clock: Clock, instant: int, t: Transition)
    requires Steady(obs, clock, instant) && Complete(obs, t)
    ensures Windowed(obs, clock.back(instant), clock.ahead(instant), t) ||
            exists u :: Windowed(obs, clock.back(instant), clock.ahead(instant), u) && u.at < t.at
  {
    var from, to := clock.back(instant), clock.ahead(instant);
    var i, wall :| 0 <= i < |obs| && FallsOn(obs[i], wall) &&
                   t == Transition(wall - obs[i].offsetFrom, obs[i].offsetFrom, obs[i].offsetTo);
    var o := obs[i];
    assert t == Change(o, wall);
    if !LooksAt(o, from, to, wall) {
      assert GoesOn(obs, o, o.rule.value, clock, instant);
      assert LooksAt(o, from, to, o.start) && Windowed(obs, from, to, Change(o, o.start));
    }
  }

  // One set of transitions may stand for another up to an instant.
  ghost predicate StandsFor(some: Transition -> bool, all: Transition -> bool, instant: int) {
    (forall t | some(t) :: all(t)) &&
    (forall t | all(t) && t.at <= instant :: some(t) || PassedBy(some, instant, t)) &&
    (forall t | all(t) :: some(t) || Preceded(some, t))
  }

  ghost predicate PassedBy(some: Transition -> bool, instant: int, t: Transition) {
    exists u :: some(u) && t.at < u.at <= instant
  }

  ghost predicate Preceded(some: Transition -> bool, t: Transition) { exists u :: some(u) && u.at < t.at }

  lemma StandsForAnswers(some: Transition -> bool, all: Transition -> bool, instant: int, offset: int)
    requires StandsFor(some, all, instant)
    ensures Answers(some, instant, offset) <==> Answers(all, instant, offset)
  {
    assert forall t | all(t) && t.at <= instant :: some(t) || PassedBy(some, instant, t);
    assert (exists t :: some(t) && t.at <= instant) <==> (exists t :: all(t) && t.at <= instant);
    forall t ensures LatestBy(some, instant, t) <==> LatestBy(all, instant, t) {
    }
    assert forall t | all(t) :: some(t) || Preceded(some, t);
    forall t ensures EarliestOf(some, t) <==> EarliestOf(all, t) {
    }
  }

  // The search finds what the complete list of transitions says.
  lemma WindowSuffices(obs: seq<Observance>, clock: Clock, instant: int, offset: int)
    requires Steady(obs, clock, instant)
    ensures FoundInWindow(obs, clock.back(instant), clock.ahead(instant), instant, offset) <==> InForce(obs, instant, offset)
  {
    var from, to := clock.back(instant), clock.ahead(instant);
    var some, all := (t: Transition) => Windowed(obs, from, to, t), (t: Transition) => Complete(obs, t);
    forall t | some(t) ensures all(t) {
      WindowedIsComplete(obs, from, to, t);
    }
    forall t | all(t) && t.at <= instant ensures some(t) || PassedBy(some, instant, t) {
      MissedIsPassed(obs, clock, instant, t);
      if !some(t) {
        var u :| Windowed(obs, from, to, u) && t.at < u.at <= instant;
        assert some(u);
      }
    }
    forall t | all(t) ensures some(t) || Preceded(some, t) {
      StartIsFirst(obs, clock, instant, t);
      if !some(t) {
        var u :| Windowed(obs, from, to, u) && u.at < t.at;
        assert some(u);
      }
    }
    StandsForAnswers(some, all, instant, offset);
  }

  // A zone that does not go on: one block's rule fell for the last time before
  // the window, later than the other block started.
  ghost predicate EndsBefore(a: Observance, b: Observance, last: int, clock: Clock, instant: int) {
    a.rule.Some? && (forall w: int :: a.rule.value.falls(w) <==> w == last) && b.rule.None? &&
    a.rdates == [] == b.rdates && last < clock.back(instant) &&
    Change(a, a.start).at < Change(b, b.start).at < Change(a, last).at <= instant
  }

  // There the window has the offset of the block that started last, and the
  // zone that of the rule.
  lemma EndedRuleIsMissed(a: Observance, b: Observance, last: int, clock: Clock, instant: int)
    requires EndsBefore(a, b, last, clock, instant)
    ensures FoundInWindow([a, b], clock.back(instant), clock.ahead(instant), instant, b.offsetTo)
    ensures InForce([a, b], instant, a.offsetTo)
    ensures a.offsetTo != b.offsetTo ==> !InForce([a, b], instant, b.offsetTo)
  {
    var obs, from, to := [a, b], clock.back(instant), clock.ahead(instant);
    var all := (t: Transition) => Complete(obs, t);
    var t, u := Change(a, last), Change(b, b.start);
    assert obs[0] == a && obs[1] == b;
    assert FallsOn(obs[0], last) && FallsOn(obs[1], b.start) && all(t) && all(u);
    assert forall x | all(x) :: x in {Change(a, a.start), u, t};
    assert LatestBy(all, instant, t);
    assert forall x | LatestBy(all, instant, x) :: x == t;
    assert LooksAt(obs[1], from, to, b.start) && Windowed(obs, from, to, u);
    assert forall x | Windowed(obs, from, to, x) :: x in {Change(a, a.start), u};
    LatestAnswers(obs, from, to, instant, u);
  }

  // ------------------------------------------------------------------ two passes

  // The offset of a wall time: first as if the wall time were an instant, and
  // then again at the instant that gives.
  method EmbeddedOffset(obs: seq<Observance>, clock: Clock, wall: int) returns (offset: Option<int>)
    requires LawfulRules(obs)
    ensures offset.None? <==> obs == []
    ensures offset.Some? ==> PassesGive(obs, clock, wall, offset.value)
  {
    var first := OffsetAt(obs, clock, wall);
    if first.None? {
      return None;
    }
    offset := OffsetAt(obs, clock, wall - first.value);
    if offset.Some? {
      PassesMade(obs, clock, wall, first.value, offset.value);
    }
  }

  ghost predicate TwoPasses(obs: seq<Observance>, clock: Clock, wall: int, first: int, offset: int) {
    SearchGives(obs, clock, wall, first) && SearchGives(obs, clock, wall - first, offset)
  }

  lemma PassesMade(obs: seq<Observance>, clock: Clock, wall: int, first: int, offset: int)
    requires SearchGives(obs, clock, wall, first) && SearchGives(obs, clock, wall - first, offset)
    ensures PassesGive(obs, clock, wall, offset)
  {
    assert TwoPasses(obs, clock, wall, first, offset);
  }

  ghost predicate PassesGive(obs: seq<Observance>, clock: Clock, wall: int, offset: int) {
    exists first :: TwoPasses(obs, clock, wall, first, offset)
  }

  // The instant a wall time of the zone stands for.
  method ToUTC(obs: seq<Observance>, clock: Clock, wall: int) returns (instant: Option<int>)
    requires LawfulRules(obs)
    ensures instant.None? <==> obs == []
    ensures instant.Some? ==> PassesGive(obs, clock, wall, wall - instant.value)
  {
    var offset := EmbeddedOffset(obs, clock, wall);
    if offset.None? {
      return None;
    }
    instant := Some(wall - offset.value);
    assert wall - instant.value == offset.value;
  }

  // The zone changes behind one instant and up to another.
  ghost predicate ChangesIn(obs: seq<Observance>, a: int, b: int) {
    exists t {:trigger Complete(obs, t)} :: Complete(obs, t) && a < t.at <= b
  }

  lemma SameBetween(obs: seq<Observance>, a: int, b: int, offset: int)
    requires a <= b && !ChangesIn(obs, a, b)
    ensures InForce(obs, a, offset) <==> InForce(obs, b, offset)
  {
    var all := (t: Transition) => Complete(obs, t);
    assert forall t | all(t) && t.at <= b :: t.at <= a;
    forall t ensures LatestBy(all, a, t) <==> LatestBy(all, b, t) {
    }
  }

  // The offset two passes arrive at is the one a search gives for the instant
  // it leads to, unless the zone changes between the instants of the passes.
  lemma TwoPassesAgree(obs: seq<Observance>, clock: Clock, wall: int, first: int, offset: int)
    requires TwoPasses(obs, clock, wall, first, offset)
    requires Steady(obs, clock, wall - first) && !Misled(obs, clock, wall - first)
    requires Steady(obs, clock, wall - offset) && !Misled(obs, clock, wall - offset)
    requires !ChangesIn(obs, wall - first, wall - offset) && !ChangesIn(obs, wall - offset, wall - first)
    ensures SearchGives(obs, clock, wall - offset, offset)
  {
    GivenIsInForce(obs, clock, wall - first, offset);
    InForceStays(obs, wall - first, wall - offset, offset);
    InForceIsGiven(obs, clock, wall - offset, offset);
  }

  lemma GivenIsInForce(obs: seq<Observance>, clock: Clock, i: int, offset: int)
    requires Steady(obs, clock, i) && !Misled(obs, clock, i) && SearchGives(obs, clock, i, offset)
    ensures InForce(obs, i, offset)
  {
    WindowSuffices(obs, clock, i, offset);
  }

  lemma InForceIsGiven(obs: seq<Observance>, clock: Clock, i: int, offset: int)
    requires Steady(obs, clock, i) && !Misled(obs, clock, i) && InForce(obs, i, offset)
    ensures SearchGives(obs, clock, i, offset)
  {
    WindowSuffices(obs, clock, i, offset);
  }

  lemma InForceStays(obs: seq<Observance>, a: int, b: int, offset: int)
    requires !ChangesIn(obs, a, b) && !ChangesIn(obs, b, a)
    ensures InForce(obs, a, offset) <==> InForce(obs, b, offset)
  {
    if a <= b {
      SameBetween(obs, a, b, offset);
    } else {
      SameBetween(obs, b, a, offset);
    }
  }

  // The zone's offset is a function of the instant: no two of its transitions
  // fall together and lead apart.
  ghost predicate Definite(obs: seq<Observance>, f: int -> int) {
    forall i: int, offset: int :: InForce(obs, i, offset) <==> offset == f(i)
  }

  // An instant at which the zone's clocks show a wall time.
  predicate Shows(f: int -> int, instant: int, wall: int) { instant + f(instant) == wall }

  // Around a wall time the zone changes at most once.
  ghost predicate ChangesOnceNear(obs: seq<Observance>, wall: int, reach: int) {
    forall t, u | Complete(obs, t) && Complete(obs, u) &&
                  wall - reach < t.at <= wall + reach && wall - reach < u.at <= wall + reach :: t.at == u.at
  }

  lemma OneStep(obs: seq<Observance>, f: int -> int, wall: int, reach: int) returns (change: int)
    requires Definite(obs, f) && ChangesOnceNear(obs, wall, reach) && reach >= 0
    ensures forall i | wall - reach <= i <= wall + reach :: f(i) == if i < change then f(wall - reach) else f(wall + reach)
  {
    var from, to := wall - reach, wall + reach;
    if ChangesIn(obs, from, to) {
      var t :| Complete(obs, t) && from < t.at <= to;
      change := t.at;
    } else {
      change := from;
    }
    forall i | from <= i <= to ensures f(i) == if i < change then f(from) else f(to) {
      if i < change {
        assert !ChangesIn(obs, from, i);
        SameBetween(obs, from, i, f(from));
      } else {
        assert !ChangesIn(obs, i, to);
        SameBetween(obs, i, to, f(to));
      }
    }
  }

  // Two passes are enough: the offset they arrive at gives an instant that
  // shows the wall time if and only if there is such an instant at all. The
  // wall times that have none are those a clock set forward skips.
  lemma TwoPassesSuffice(obs: seq<Observance>, f: int -> int, wall: int, reach: int)
    requires Definite(obs, f) && ChangesOnceNear(obs, wall, reach)
    requires forall i: int :: -reach <= f(i) <= reach
    ensures var offset := f(wall - f(wall));
            Shows(f, wall - offset, wall) <==> exists i: int :: Shows(f, i, wall)
  {
    var offset := f(wall - f(wall));
    assert -reach <= f(wall) <= reach;
    var change := OneStep(obs, f, wall, reach);
    if i: int :| Shows(f, i, wall) {
      assert -reach <= f(i) <= reach;
      assert wall - reach <= i <= wall + reach;
      assert Shows(f, wall - offset, wall);
    }
  }

  // What the method returns is that offset, unless a search for it is misled.
  lemma EmbeddedIsDefinite(obs: seq<Observance>, clock: Clock, f: int -> int, wall: int, offset: int)
    requires Definite(obs, f) && Steady(obs, clock, wall) && Steady(obs, clock, wall - f(wall))
    requires !Misled(obs, clock, wall) && !Misled(obs, clock, wall - f(wall))
    requires PassesGive(obs, clock, wall, offset)
    ensures offset == f(wall - f(wall))
  {
    forall first | TwoPasses(obs, clock, wall, first, offset) ensures offset == f(wall - f(wall)) {
      FirstIsDefinite(obs, clock, f, wall, first, offset);
      SecondIsDefinite(obs, clock, f, wall, first, offset);
    }
  }

  lemma FirstIsDefinite(obs: seq<Observance>, clock: Clock, f: int -> int, wall: int, first: int, offset: int)
    requires Definite(obs, f) && Steady(obs, clock, wall) && !Misled(obs, clock, wall)
    requires TwoPasses(obs, clock, wall, first, offset)
    ensures first == f(wall)
  {
    GivenIsInForce(obs, clock, wall, first);
  }

  lemma SecondIsDefinite(obs: seq<Observance>, clock: Clock, f: int -> int, wall: int, first: int, offset: int)
    requires Definite(obs, f) && Steady(obs, clock, wall - first) && !Misled(obs, clock, wall - first)
    requires TwoPasses(obs, clock, wall, first, offset)
    ensures offset == f(wall - first)
  {
    GivenIsInForce(obs, clock, wall - first, offset);
  }
}
