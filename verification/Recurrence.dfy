// Expanding a calendar object into its instances, and summarising it for the
// index. internal/recurrence/expand.go
//
// Times are seconds from the zero time. A recurrence set is what the rule
// library makes of RRULE, RDATE and EXDATE: a rising sequence of wall times.
module Recurrence {
  import opened Text

  // At most so many elements of a set are looked at in one expansion.
  const MAX_OCCURRENCES: nat := 10000

  // Wall clocks differ from UTC by less than this: 26 hours.
  const SLACK := 93600

  // One occurrence in absolute time. The id says which one of its series it
  // is; for a component that does not recur it is the zero time.
  datatype Instance = Instance(start: int, end: int, id: int, isOverride: bool)

  datatype Series = Series(at: nat -> int, length: Option<nat>, bounded: bool)

  // A component, the zone that takes its wall times to instants, and its set
  // when it recurs.
  datatype Master = Master(start: int, end: int, zone: int -> int, series: Option<Series>)

  // A component that stands in for the occurrence it names.
  datatype Override = Override(id: int, start: int, end: int)

  datatype Calendar = Calendar(master: Option<Master>, overrides: seq<Override>)

  predicate Within(s: Series, k: nat) { s.length.Some? ==> k < s.length.value }

  ghost predicate Rising(s: Series) {
    (s.bounded ==> s.length.Some?) && forall i: nat, j: nat | i < j && Within(s, j) :: s.at(i) < s.at(j)
  }

  // Every wall time is within 26 hours of the instant it stands for.
  ghost predicate Near(m: Master) { forall w: int :: w - 93_600 <= m.zone(w) <= w + 93_600 }

  predicate Overlaps(inst: Instance, from: int, to: int) {
    if inst.start == inst.end then from <= inst.start < to
    else inst.start < to && inst.end > from
  }

  function Base(m: Master): Instance { Instance(m.start, m.end, 0, false) }

  // One wall time of the series as an instance in the master's zone.
  function Absolute(m: Master, wall: int): Instance {
    Instance(m.zone(wall), m.zone(wall) + (m.end - m.start), wall, false)
  }

  function Replacement(o: Override): Instance { Instance(o.start, o.end, o.id, true) }

  // ------------------------------------------------------- the master's instances

  predicate Occurs(m: Master, k: nat) {
    match m.series
    case None => k == 0
    case Some(s) => Within(s, k)
  }

  function Occurrence(m: Master, k: nat): Instance
  {
    match m.series
    case None => Base(m)
    case Some(s) => Absolute(m, s.at(k))
  }

  // The elements the iteration gets to.
  predicate Reached(m: Master, k: nat) { Occurs(m, k) && (m.series.Some? ==> k < MAX_OCCURRENCES) }

  // The overlapping ones of the elements it gets to, from k on: every element
  // made absolute and looked at, without any window.
  function Overlapping(m: Master, from: int, to: int, k: nat): seq<Instance>
    decreases MAX_OCCURRENCES + 1 - k
  {
    if k > MAX_OCCURRENCES || !Reached(m, k) then []
    else if Overlaps(Occurrence(m, k), from, to) then [Occurrence(m, k)] + Overlapping(m, from, to, k + 1)
    else Overlapping(m, from, to, k + 1)
  }

  // Iterates the set between wall clock bounds that are wide enough, and keeps
  // what overlaps once it is absolute. The window loses nothing.
  method ExpandMaster(m: Master, from: int, to: int) returns (instances: seq<Instance>)
    requires m.series.Some? ==> Near(m) && Rising(m.series.value)
    ensures instances == Overlapping(m, from, to, 0)
    ensures forall inst :: inst in instances <==> OfMaster(m, inst) && Meets(inst.start, inst.end, from, to)
  {
    OverlappingIsMasters(m, from, to);
    if m.series.None? {
      return if Overlaps(Base(m), from, to) then [Base(m)] else [];
    }
    var s := m.series.value;
    var duration := m.end - m.start;
    var windowFrom := from - duration - SLACK;
    var windowTo := to + SLACK;
    instances := [];
    var count := 0;
    while count < MAX_OCCURRENCES
      invariant 0 <= count <= MAX_OCCURRENCES
      invariant instances + Overlapping(m, from, to, count) == Overlapping(m, from, to, 0)
    {
      if !Within(s, count) {
        break;
      }
      var wall := s.at(count);
      if wall > windowTo {
        NothingLater(m, from, to, count);
        break;
      }
      if wall < windowFrom {
        assert !Overlaps(Absolute(m, wall), from, to);
      } else {
        var inst := Absolute(m, wall);
        if Overlaps(inst, from, to) {
          RegroupInstances(instances, inst, Overlapping(m, from, to, count + 1));
          instances := instances + [inst];
        }
      }
      count := count + 1;
    }
    assert instances + [] == instances;
  }

  lemma RegroupInstances(a: seq<Instance>, x: Instance, b: seq<Instance>)
    ensures a + ([x] + b) == (a + [x]) + b
  {
  }

  lemma {:induction false} NothingLater(m: Master, from: int, to: int, k: nat)
    requires m.series.Some? && Near(m) && Rising(m.series.value)
    requires Within(m.series.value, k) && m.series.value.at(k) > to + SLACK
    ensures Overlapping(m, from, to, k) == []
    decreases MAX_OCCURRENCES + 1 - k
  {
    var s := m.series.value;
    if k <= MAX_OCCURRENCES && Reached(m, k) {
      assert !Overlaps(Occurrence(m, k), from, to);
      if Within(s, k + 1) {
        assert s.at(k) < s.at(k + 1);
        NothingLater(m, from, to, k + 1);
      }
    }
  }

  // Occurrence k has been reached and overlaps.
  predicate Found(m: Master, from: int, to: int, k: nat) {
    Reached(m, k) && Overlaps(Occurrence(m, k), from, to)
  }

  lemma {:induction false} OverlappingHolds(m: Master, from: int, to: int, k: nat, inst: Instance)
    ensures inst in Overlapping(m, from, to, k) <==> exists j: nat :: k <= j && Found(m, from, to, j) && inst == Occurrence(m, j)
    decreases MAX_OCCURRENCES + 1 - k
  {
    if k <= MAX_OCCURRENCES && Reached(m, k) {
      OverlappingHolds(m, from, to, k + 1, inst);
      if Found(m, from, to, k) && inst == Occurrence(m, k) {
        assert inst in Overlapping(m, from, to, k);
      }
    } else {
      forall j: nat | k <= j ensures !Found(m, from, to, j) {
        assert m.series.Some? ==> (Within(m.series.value, j) ==> Within(m.series.value, k));
      }
    }
  }

  // An interval meets a range; one without length does where the range begins.
  predicate Meets(start: int, end: int, from: int, to: int) {
    (end == start && from <= start && start < to) || (end != start && start < to && end > from)
  }

  // What comes of a component by itself. One that recurs has an instance for
  // each of its first ten thousand wall times: it starts when that is in the
  // zone, lasts as long as the component does, and goes by the wall time.
  ghost predicate OfMaster(m: Master, inst: Instance) {
    !inst.isOverride &&
    match m.series
    case None => inst.start == m.start && inst.end == m.end && inst.id == 0
    case Some(s) =>
      exists k: nat :: k < 10_000 && (s.length.Some? ==> k < s.length.value) && inst.id == s.at(k) &&
                       inst.start == m.zone(s.at(k)) && inst.end - inst.start == m.end - m.start
  }

  lemma MasterHas(m: Master, inst: Instance)
    ensures OfMaster(m, inst) <==> exists k: nat :: Reached(m, k) && inst == Occurrence(m, k)
  {
    match m.series
    case None => assert Occurrence(m, 0) == Base(m) && Reached(m, 0);
    case Some(s) =>
      if OfMaster(m, inst) {
        var k: nat :| k < 10_000 && (s.length.Some? ==> k < s.length.value) && inst.id == s.at(k) &&
                      inst.start == m.zone(s.at(k)) && inst.end - inst.start == m.end - m.start;
        assert Reached(m, k) && inst == Occurrence(m, k);
      }
  }

  lemma OverlappingIsMasters(m: Master, from: int, to: int)
    ensures forall inst :: inst in Overlapping(m, from, to, 0) <==> OfMaster(m, inst) && Meets(inst.start, inst.end, from, to)
  {
    forall inst
      ensures inst in Overlapping(m, from, to, 0) <==> OfMaster(m, inst) && Meets(inst.start, inst.end, from, to)
    {
      OverlappingHolds(m, from, to, 0, inst);
      MasterHas(m, inst);
      assert forall k: nat | Reached(m, k) && inst == Occurrence(m, k) :: Found(m, from, to, k) <==> Meets(inst.start, inst.end, from, to);
    }
  }

  // Ids tell the kept occurrences apart.
  predicate DistinctIds(instances: seq<Instance>) {
    forall i, j | 0 <= i < j < |instances| :: instances[i].id != instances[j].id
  }

  lemma {:induction false} OverlappingDistinct(m: Master, from: int, to: int, k: nat)
    requires m.series.Some? ==> Rising(m.series.value)
    ensures DistinctIds(Overlapping(m, from, to, k))
    decreases MAX_OCCURRENCES + 1 - k
  {
    if k <= MAX_OCCURRENCES && Reached(m, k) {
      OverlappingDistinct(m, from, to, k + 1);
      forall inst | inst in Overlapping(m, from, to, k + 1) ensures inst.id != Occurrence(m, k).id {
        OverlappingHolds(m, from, to, k + 1, inst);
      }
    }
  }

  // ------------------------------------------------------------------ the expansion

  // Later overrides of an id displace earlier ones.
  function ById(overrides: seq<Override>): map<int, Instance> {
    if overrides == [] then map[]
    else
      var o := overrides[|overrides| - 1];
      ById(overrides[..|overrides| - 1])[o.id := Replacement(o)]
  }

  predicate Sorted(instances: seq<Instance>) {
    forall i, j | 0 <= i < j < |instances| :: instances[i].start <= instances[j].start
  }

  // What the expansion returns: the kept occurrences no override displaces,
  // and the overrides that overlap.
  predicate Returned(kept: seq<Instance>, replaced: map<int, Instance>, from: int, to: int, inst: Instance) {
    (inst in kept && inst.id !in replaced) ||
    (inst.id in replaced && replaced[inst.id] == inst && Overlaps(inst, from, to))
  }

  function Kept(cal: Calendar, from: int, to: int): seq<Instance> {
    match cal.master
    case Some(m) => Overlapping(m, from, to, 0)
    case None => []
  }

  ghost predicate WellFormed(cal: Calendar) {
    cal.master.Some? && cal.master.value.series.Some? ==>
      Near(cal.master.value) && Rising(cal.master.value.series.value)
  }

  // The expansion of an object between two instants.
  method Expand(cal: Calendar, from: int, to: int) returns (instances: seq<Instance>)
    requires WellFormed(cal)
    ensures Sorted(instances)
    ensures forall inst :: inst in instances <==> Expected(cal, from, to, inst)
    ensures forall inst :: inst in instances <==> Returned(Kept(cal, from, to), ById(cal.overrides), from, to, inst)
    ensures DistinctIds(instances)
  {
    var byId: map<int, Instance> := map[];
    var i := 0;
    while i < |cal.overrides|
      invariant 0 <= i <= |cal.overrides|
      invariant byId == ById(cal.overrides[..i])
    {
      assert cal.overrides[..i + 1][..i] == cal.overrides[..i];
      byId := byId[cal.overrides[i].id := Replacement(cal.overrides[i])];
      i := i + 1;
    }
    assert cal.overrides[..|cal.overrides|] == cal.overrides;
    var expanded: seq<Instance> := [];
    if cal.master.Some? {
      expanded := ExpandMaster(cal.master.value, from, to);
      OverlappingDistinct(cal.master.value, from, to, 0);
    }
    OverrideIds(cal.overrides);
    KeptAreNoOverrides(cal, from, to);
    ReturnedIsExpected(cal, from, to);
    var unsorted := Merge(expanded, byId, from, to);
    instances := SortByStart(unsorted);
    SortKeeps(unsorted);
  }

  // Puts the overrides in the place of the occurrences they name, and then
  // those that name none.
  method Merge(expanded: seq<Instance>, byId: map<int, Instance>, from: int, to: int) returns (instances: seq<Instance>)
    requires DistinctIds(expanded) && forall id | id in byId :: byId[id].id == id
    ensures forall inst :: inst in instances <==> Returned(expanded, byId, from, to, inst)
    ensures DistinctIds(instances)
  {
    var left;
    instances, left := Displace(expanded, byId, from, to);
    instances := AddRest(instances, expanded, byId, left, from, to);
  }

  method Displace(expanded: seq<Instance>, byId: map<int, Instance>, from: int, to: int)
    returns (instances: seq<Instance>, left: map<int, Instance>)
    requires DistinctIds(expanded) && forall id | id in byId :: byId[id].id == id
    ensures Part(left, byId) && Gathered(instances, expanded, byId, left, from, to)
  {
    instances := [];
    left := byId;
    var i := 0;
    while i < |expanded|
      invariant 0 <= i <= |expanded|
      invariant Part(left, byId) && forall id :: id in left <==> id in byId && Unseen(expanded, i, id)
      invariant Gathered(instances, expanded[..i], byId, left, from, to)
    {
      var inst := expanded[i];
      UnseenNext(expanded, i);
      GatherNext(instances, expanded, i, byId, left, from, to);
      if inst.id in left {
        var o := left[inst.id];
        left := left - {inst.id};
        if Overlaps(o, from, to) {
          instances := instances + [o];
        }
      } else {
        instances := instances + [inst];
      }
      i := i + 1;
    }
    assert expanded[..|expanded|] == expanded;
  }

  method AddRest(some: seq<Instance>, ghost expanded: seq<Instance>, ghost byId: map<int, Instance>, rest: map<int, Instance>, from: int, to: int)
    returns (instances: seq<Instance>)
    requires forall id | id in byId :: byId[id].id == id
    requires Part(rest, byId) && Gathered(some, expanded, byId, rest, from, to)
    ensures Gathered(instances, expanded, byId, map[], from, to)
  {
    instances := some;
    var ids := rest.Keys;
    ghost var left := rest;
    while ids != {}
      invariant ids == left.Keys && ids <= rest.Keys
      invariant Part(left, byId) && Part(left, rest) && Gathered(instances, expanded, byId, left, from, to)
      decreases |ids|
    {
      HasMember(ids);
      var id :| id in ids;
      GatherOverride(instances, expanded, byId, left, from, to, id);
      if Overlaps(rest[id], from, to) {
        instances := instances + [rest[id]];
      }
      ids := ids - {id};
      left := left - {id};
    }
    assert left == map[];
  }

  lemma HasMember(ids: set<int>)
    ensures ids == {} || exists id :: id in ids
  {
    if forall id :: id !in ids {
      assert ids == {};
    }
  }

  predicate Part(left: map<int, Instance>, byId: map<int, Instance>) {
    forall id | id in left :: id in byId && left[id] == byId[id]
  }

  lemma UnseenNext(expanded: seq<Instance>, i: nat)
    requires i < |expanded| && DistinctIds(expanded)
    ensures Unseen(expanded, i, expanded[i].id)
    ensures forall id :: Unseen(expanded, i + 1, id) <==> Unseen(expanded, i, id) && id != expanded[i].id
  {
  }

  predicate Unseen(expanded: seq<Instance>, i: nat, id: int)
    requires i <= |expanded|
  {
    forall j | 0 <= j < i :: expanded[j].id != id
  }

  // What has been gathered: all that is returned but for the overrides left.
  ghost predicate Gathered(instances: seq<Instance>, seen: seq<Instance>, byId: map<int, Instance>, left: map<int, Instance>, from: int, to: int) {
    DistinctIds(instances) &&
    (forall inst :: inst in instances <==> inst.id !in left && Returned(seen, byId, from, to, inst))
  }

  lemma GatherNext(instances: seq<Instance>, expanded: seq<Instance>, i: nat, byId: map<int, Instance>, left: map<int, Instance>, from: int, to: int)
    requires i < |expanded| && DistinctIds(expanded) && forall id | id in byId :: byId[id].id == id
    requires Part(left, byId) && forall id :: id in left <==> id in byId && Unseen(expanded, i, id)
    requires Gathered(instances, expanded[..i], byId, left, from, to)
    ensures var inst := expanded[i];
            if inst.id in left then
              Gathered(if Overlaps(left[inst.id], from, to) then instances + [left[inst.id]] else instances,
                       expanded[..i + 1], byId, left - {inst.id}, from, to)
            else Gathered(instances + [inst], expanded[..i + 1], byId, left, from, to)
  {
    var inst := expanded[i];
    assert forall x :: x in expanded[..i + 1] <==> x in expanded[..i] || x == inst;
    assert forall x | x in expanded[..i] :: x.id != inst.id;
    if inst.id in left {
      if Overlaps(left[inst.id], from, to) {
        DistinctAppend(instances, left[inst.id]);
      }
    } else {
      DistinctAppend(instances, inst);
    }
  }

  lemma DistinctAppend(instances: seq<Instance>, x: Instance)
    requires DistinctIds(instances) && forall y | y in instances :: y.id != x.id
    ensures DistinctIds(instances + [x]) && forall y :: y in instances + [x] <==> y in instances || y == x
  {
  }

  lemma GatherOverride(instances: seq<Instance>, expanded: seq<Instance>, byId: map<int, Instance>, left: map<int, Instance>, from: int, to: int, id: int)
    requires id in left && Part(left, byId) && forall k | k in byId :: byId[k].id == k
    requires Gathered(instances, expanded, byId, left, from, to)
    ensures Gathered(if Overlaps(left[id], from, to) then instances + [left[id]] else instances, expanded, byId, left - {id}, from, to)
  {
    if Overlaps(left[id], from, to) {
      DistinctAppend(instances, left[id]);
    }
  }

  lemma {:induction false} OverrideIds(overrides: seq<Override>)
    ensures forall id | id in ById(overrides) :: ById(overrides)[id].id == id && ById(overrides)[id].isOverride
    decreases |overrides|
  {
    if overrides != [] {
      OverrideIds(overrides[..|overrides| - 1]);
    }
  }

  lemma KeptAreNoOverrides(cal: Calendar, from: int, to: int)
    ensures forall inst | inst in Kept(cal, from, to) :: !inst.isOverride
  {
    if cal.master.Some? {
      forall inst | inst in Kept(cal, from, to) ensures !inst.isOverride {
        OverlappingHolds(cal.master.value, from, to, 0, inst);
      }
    }
  }

  // A sort by start, standing for the library's.
  function SortByStart(instances: seq<Instance>): seq<Instance> {
    if instances == [] then [] else Insert(instances[0], SortByStart(instances[1..]))
  }

  function Insert(x: Instance, sorted: seq<Instance>): seq<Instance> {
    if sorted == [] || x.start <= sorted[0].start then [x] + sorted
    else [sorted[0]] + Insert(x, sorted[1..])
  }

  lemma {:induction false} SortKeeps(instances: seq<Instance>)
    ensures Sorted(SortByStart(instances)) && forall x :: x in SortByStart(instances) <==> x in instances
    ensures DistinctIds(instances) ==> DistinctIds(SortByStart(instances))
  {
    if instances != [] {
      SortKeeps(instances[1..]);
      InsertKeeps(instances[0], SortByStart(instances[1..]));
      assert forall x :: x in instances <==> x == instances[0] || x in instances[1..];
      assert forall x | x in instances[1..] :: DistinctIds(instances) ==> x.id != instances[0].id;
    }
  }

  lemma {:induction false} InsertHolds(x: Instance, sorted: seq<Instance>)
    ensures forall y :: y in Insert(x, sorted) <==> y == x || y in sorted
  {
    if sorted != [] && x.start > sorted[0].start {
      InsertHolds(x, sorted[1..]);
    }
  }

  lemma {:induction false} InsertKeeps(x: Instance, sorted: seq<Instance>)
    requires Sorted(sorted)
    ensures Sorted(Insert(x, sorted)) && forall y :: y in Insert(x, sorted) <==> y == x || y in sorted
    ensures DistinctIds(sorted) && (forall y | y in sorted :: y.id != x.id) ==> DistinctIds(Insert(x, sorted))
  {
    InsertHolds(x, sorted);
    HeadApart(sorted);
    if sorted == [] || x.start <= sorted[0].start {
      PrependKeeps(x, sorted);
    } else {
      InsertKeeps(x, sorted[1..]);
      PrependKeeps(sorted[0], Insert(x, sorted[1..]));
    }
  }

  lemma HeadApart(s: seq<Instance>)
    requires Sorted(s)
    ensures s != [] ==> forall y :: y in s <==> y == s[0] || y in s[1..]
    ensures s != [] ==> forall y | y in s[1..] :: s[0].start <= y.start && (DistinctIds(s) ==> y.id != s[0].id)
    ensures s != [] ==> forall y | y in s :: s[0].start <= y.start
  {
  }

  lemma PrependKeeps(x: Instance, s: seq<Instance>)
    requires Sorted(s) && forall y | y in s :: x.start <= y.start
    ensures Sorted([x] + s)
    ensures DistinctIds(s) && (forall y | y in s :: y.id != x.id) ==> DistinctIds([x] + s)
  {
  }

  // ------------------------------------------------------------ what is true of it

  // The instances an object stands for: each occurrence no override names by
  // the instant it would have started, and the last override of each id.
  predicate NoneNames(cal: Calendar, instant: int) {
    forall i | 0 <= i < |cal.overrides| :: cal.overrides[i].id != instant
  }

  predicate Latest(cal: Calendar, i: nat)
    requires i < |cal.overrides|
  {
    forall j | i < j < |cal.overrides| :: cal.overrides[j].id != cal.overrides[i].id
  }

  predicate StandsIn(cal: Calendar, inst: Instance) {
    exists i | 0 <= i < |cal.overrides| :: Latest(cal, i) && inst == Replacement(cal.overrides[i])
  }

  ghost predicate Regular(cal: Calendar, inst: Instance) {
    cal.master.Some? && NoneNames(cal, inst.start) &&
    exists k: nat :: Occurs(cal.master.value, k) && inst == Occurrence(cal.master.value, k)
  }

  ghost predicate TrueInstance(cal: Calendar, inst: Instance) { Regular(cal, inst) || StandsIn(cal, inst) }

  predicate ReturnedBy(cal: Calendar, from: int, to: int, inst: Instance) {
    Returned(Kept(cal, from, to), ById(cal.overrides), from, to, inst)
  }

  lemma {:induction false} ByIdHolds(overrides: seq<Override>, id: int)
    ensures id in ById(overrides) <==> exists i :: 0 <= i < |overrides| && overrides[i].id == id
    ensures id in ById(overrides) ==>
              exists i :: 0 <= i < |overrides| && overrides[i].id == id && ById(overrides)[id] == Replacement(overrides[i]) &&
                          forall j | i < j < |overrides| :: overrides[j].id != id
    decreases |overrides|
  {
    if overrides != [] {
      var n := |overrides| - 1;
      var front := overrides[..n];
      ByIdHolds(front, id);
      if overrides[n].id == id {
        assert ById(overrides)[id] == Replacement(overrides[n]);
      } else if id in ById(front) {
        var i :| 0 <= i < |front| && front[i].id == id && ById(front)[id] == Replacement(front[i]) &&
                 forall j | i < j < |front| :: front[j].id != id;
        assert overrides[i] == front[i];
        assert forall j | i < j < n :: overrides[j] == front[j];
      } else {
        assert forall i | 0 <= i < n :: overrides[i] == front[i];
      }
    }
  }

  lemma StandsInIsById(cal: Calendar, inst: Instance)
    ensures StandsIn(cal, inst) <==> inst.id in ById(cal.overrides) && ById(cal.overrides)[inst.id] == inst
  {
    ByIdHolds(cal.overrides, inst.id);
    if inst.id in ById(cal.overrides) {
      var k :| 0 <= k < |cal.overrides| && cal.overrides[k].id == inst.id &&
               ById(cal.overrides)[inst.id] == Replacement(cal.overrides[k]) &&
               forall j | k < j < |cal.overrides| :: cal.overrides[j].id != inst.id;
      assert Latest(cal, k);
      assert forall i | 0 <= i < |cal.overrides| && Latest(cal, i) && inst == Replacement(cal.overrides[i]) :: i == k;
    }
  }

  // An override is filed under the instant it names, and an occurrence is
  // looked up by its id. The two agree on which of the occurrences that are
  // reached and overlap are overridden.
  ghost predicate KeysAgree(cal: Calendar, from: int, to: int) {
    cal.master.Some? ==>
      forall k: nat | Found(cal.master.value, from, to, k) ::
        NoneNames(cal, Occurrence(cal.master.value, k).start) <==> NoneNames(cal, Occurrence(cal.master.value, k).id)
  }

  // What the expansion yields of an object, for the ranges it overlaps: the
  // occurrences reached under an id no override has, and the overrides.
  ghost predicate Yields(cal: Calendar, inst: Instance) {
    StandsIn(cal, inst) ||
    (cal.master.Some? && NoneNames(cal, inst.id) &&
     exists k: nat :: Reached(cal.master.value, k) && inst == Occurrence(cal.master.value, k))
  }

  lemma ReturnedIfYielded(cal: Calendar, from: int, to: int, inst: Instance)
    ensures ReturnedBy(cal, from, to, inst) <==> Yields(cal, inst) && Overlaps(inst, from, to)
  {
    StandsInIsById(cal, inst);
    NamedIsById(cal, inst.id);
    if cal.master.Some? {
      var m := cal.master.value;
      OverlappingHolds(m, from, to, 0, inst);
      if Overlaps(inst, from, to) {
        assert forall k: nat :: Reached(m, k) && inst == Occurrence(m, k) ==> Found(m, from, to, k);
      }
    }
  }

  // What an expansion is expected to hold: of the master what no override is
  // filed for, and of the overrides of one id the last, where they meet the
  // range.
  ghost predicate Expected(cal: Calendar, from: int, to: int, inst: Instance) {
    Meets(inst.start, inst.end, from, to) &&
    if exists i :: 0 <= i < |cal.overrides| && cal.overrides[i].id == inst.id then
      inst.isOverride &&
      exists i :: 0 <= i < |cal.overrides| && cal.overrides[i] == Override(inst.id, inst.start, inst.end) &&
                  forall j | i < j < |cal.overrides| :: cal.overrides[j].id != inst.id
    else cal.master.Some? && OfMaster(cal.master.value, inst)
  }

  lemma ReturnedIsExpected(cal: Calendar, from: int, to: int)
    ensures forall inst :: Returned(Kept(cal, from, to), ById(cal.overrides), from, to, inst) <==> Expected(cal, from, to, inst)
  {
    forall inst ensures ReturnedBy(cal, from, to, inst) <==> Expected(cal, from, to, inst) {
      ByIdHolds(cal.overrides, inst.id);
      if cal.master.Some? {
        OverlappingIsMasters(cal.master.value, from, to);
      }
      if Expected(cal, from, to, inst) && inst.id in ById(cal.overrides) {
        LastIsById(cal.overrides, inst);
      }
    }
  }

  lemma LastIsById(overrides: seq<Override>, inst: Instance)
    requires inst.isOverride
    requires exists i :: 0 <= i < |overrides| && overrides[i] == Override(inst.id, inst.start, inst.end) &&
                         forall j | i < j < |overrides| :: overrides[j].id != inst.id
    ensures inst.id in ById(overrides) && ById(overrides)[inst.id] == inst
  {
    StandsInIsById(Calendar(None, overrides), inst);
    var i :| 0 <= i < |overrides| && overrides[i] == Override(inst.id, inst.start, inst.end) &&
             forall j | i < j < |overrides| :: overrides[j].id != inst.id;
    assert inst == Replacement(overrides[i]) && Latest(Calendar(None, overrides), i);
  }

  // The iteration ends before its cap.
  predicate Fits(cal: Calendar, to: int) {
    cal.master.Some? && cal.master.value.series.Some? ==>
      var s := cal.master.value.series.value;
      Within(s, MAX_OCCURRENCES) ==> s.at(MAX_OCCURRENCES) > to + SLACK
  }

  lemma NamedIsById(cal: Calendar, id: int)
    ensures NoneNames(cal, id) <==> id !in ById(cal.overrides)
  {
    ByIdHolds(cal.overrides, id);
  }

  // Whatever the cap, what is returned overlaps; it is a true instance if and
  // only if it is an override or no override names the instant it starts at.
  lemma ReturnedIsTrue(cal: Calendar, from: int, to: int, inst: Instance)
    requires ReturnedBy(cal, from, to, inst)
    ensures Overlaps(inst, from, to)
    ensures TrueInstance(cal, inst) <==> inst.isOverride || NoneNames(cal, inst.start)
  {
    StandsInIsById(cal, inst);
    OverrideIds(cal.overrides);
    if inst in Kept(cal, from, to) {
      var m := cal.master.value;
      OverlappingHolds(m, from, to, 0, inst);
      var k: nat :| Found(m, from, to, k) && inst == Occurrence(m, k);
      assert Occurs(m, k);
    }
  }

  lemma OverlapIsReached(cal: Calendar, from: int, to: int, k: nat)
    requires WellFormed(cal) && Fits(cal, to) && cal.master.Some?
    requires Occurs(cal.master.value, k) && Overlaps(Occurrence(cal.master.value, k), from, to)
    ensures Reached(cal.master.value, k)
  {
    if cal.master.value.series.Some? {
      TooLate(cal.master.value, from, to, k);
    }
  }

  lemma TooLate(m: Master, from: int, to: int, k: nat)
    requires m.series.Some? && Near(m) && Rising(m.series.value) && Within(m.series.value, k)
    requires var s := m.series.value; Within(s, MAX_OCCURRENCES) ==> s.at(MAX_OCCURRENCES) > to + SLACK
    ensures k >= MAX_OCCURRENCES ==> !Overlaps(Occurrence(m, k), from, to)
  {
    var s := m.series.value;
    assert k > MAX_OCCURRENCES ==> s.at(MAX_OCCURRENCES) < s.at(k);
    assert m.zone(s.at(k)) >= s.at(k) - SLACK;
  }

  // Nothing true and overlapping lies beyond the cap.
  ghost predicate NothingBeyond(cal: Calendar, from: int, to: int) {
    cal.master.Some? ==>
      forall k: nat | Occurs(cal.master.value, k) && !Reached(cal.master.value, k) ::
        Overlaps(Occurrence(cal.master.value, k), from, to) ==> !NoneNames(cal, Occurrence(cal.master.value, k).start)
  }

  // The expansion is everything-then-filter if and only if the two keys agree
  // on what it reaches, and nothing it should return lies beyond its cap.
  lemma CapExact(cal: Calendar, from: int, to: int)
    requires WellFormed(cal)
    ensures ExactOn(cal, from, to) <==> KeysAgree(cal, from, to) && NothingBeyond(cal, from, to)
  {
    if !NothingBeyond(cal, from, to) {
      var k: nat :| Occurs(cal.master.value, k) && !Reached(cal.master.value, k) &&
                    Overlaps(Occurrence(cal.master.value, k), from, to) && NoneNames(cal, Occurrence(cal.master.value, k).start);
      BeyondIsLost(cal, from, to, k);
    } else if !KeysAgree(cal, from, to) {
      var k: nat :| Found(cal.master.value, from, to, k) &&
                    !(NoneNames(cal, Occurrence(cal.master.value, k).start) <==> NoneNames(cal, Occurrence(cal.master.value, k).id));
      KeysApart(cal, from, to, k);
    } else {
      forall inst ensures ReturnedBy(cal, from, to, inst) <==> TrueInstance(cal, inst) && Overlaps(inst, from, to) {
        KeptIsTrue(cal, from, to, inst);
        FoundIfReached(cal, from, to, inst);
      }
    }
  }

  lemma KeptIsTrue(cal: Calendar, from: int, to: int, inst: Instance)
    requires KeysAgree(cal, from, to)
    ensures ReturnedBy(cal, from, to, inst) ==> TrueInstance(cal, inst) && Overlaps(inst, from, to)
  {
    if ReturnedBy(cal, from, to, inst) {
      ReturnedIsTrue(cal, from, to, inst);
      StandsInIsById(cal, inst);
      if inst in Kept(cal, from, to) && inst.id !in ById(cal.overrides) {
        OverlappingHolds(cal.master.value, from, to, 0, inst);
        NamedIsById(cal, inst.id);
      }
    }
  }

  lemma FoundIfReached(cal: Calendar, from: int, to: int, inst: Instance)
    requires KeysAgree(cal, from, to) && NothingBeyond(cal, from, to)
    ensures TrueInstance(cal, inst) && Overlaps(inst, from, to) ==> ReturnedBy(cal, from, to, inst)
  {
    StandsInIsById(cal, inst);
    if Regular(cal, inst) && Overlaps(inst, from, to) {
      var m := cal.master.value;
      var k: nat :| Occurs(m, k) && inst == Occurrence(m, k);
      NamedIsById(cal, inst.id);
      OverlappingHolds(m, from, to, 0, inst);
      assert Reached(m, k);
      assert Found(m, from, to, k);
    }
  }

  // Where the keys disagree on an occurrence it is returned and should not be,
  // or it should be returned and is not.
  lemma KeysApart(cal: Calendar, from: int, to: int, k: nat)
    requires cal.master.Some? && Found(cal.master.value, from, to, k)
    requires !(NoneNames(cal, Occurrence(cal.master.value, k).start) <==> NoneNames(cal, Occurrence(cal.master.value, k).id))
    ensures !ExactOn(cal, from, to)
  {
    var m := cal.master.value;
    var inst := Occurrence(m, k);
    OverlappingHolds(m, from, to, 0, inst);
    NamedIsById(cal, inst.id);
    OverrideIds(cal.overrides);
    StandsInIsById(cal, inst);
    assert Occurs(m, k);
    assert ReturnedBy(cal, from, to, inst) <==> NoneNames(cal, inst.id);
    assert TrueInstance(cal, inst) <==> NoneNames(cal, inst.start);
  }

  lemma BeyondIsLost(cal: Calendar, from: int, to: int, k: nat)
    requires WellFormed(cal) && cal.master.Some? && Occurs(cal.master.value, k) && !Reached(cal.master.value, k)
    requires Overlaps(Occurrence(cal.master.value, k), from, to) && NoneNames(cal, Occurrence(cal.master.value, k).start)
    ensures !ExactOn(cal, from, to)
  {
    var m := cal.master.value;
    var inst := Occurrence(m, k);
    var s := m.series.value;
    assert Regular(cal, inst);
    OverlappingHolds(m, from, to, 0, inst);
    OverrideIds(cal.overrides);
    assert forall j: nat | Within(s, j) && s.at(j) == s.at(k) :: !(j < k) && !(k < j);
    assert !ReturnedBy(cal, from, to, inst);
  }

  // So where the iteration ends before its cap, the agreement of the keys is
  // all it takes.
  lemma ExpandExact(cal: Calendar, from: int, to: int)
    requires WellFormed(cal) && Fits(cal, to)
    ensures ExactOn(cal, from, to) <==> KeysAgree(cal, from, to)
  {
    if cal.master.Some? {
      forall k: nat | Occurs(cal.master.value, k) && Overlaps(Occurrence(cal.master.value, k), from, to)
        ensures Reached(cal.master.value, k)
      {
        OverlapIsReached(cal, from, to, k);
      }
    }
    CapExact(cal, from, to);
  }

  // An event that does not recur is looked up by the zero time, whatever its
  // zone: an override that names its start leaves it standing.
  lemma PlainExact(cal: Calendar, from: int, to: int)
    requires cal.master.Some? && cal.master.value.series.None?
    ensures var m := cal.master.value;
            ExactOn(cal, from, to) <==>
            (Overlaps(Base(m), from, to) ==> (NoneNames(cal, m.start) <==> NoneNames(cal, 0)))
  {
    ExpandExact(cal, from, to);
    assert Occurrence(cal.master.value, 0) == Base(cal.master.value);
    assert forall k: nat :: Found(cal.master.value, from, to, k) <==> k == 0 && Overlaps(Base(cal.master.value), from, to);
  }

  // A meeting in UTC moved to the afternoon by an override: it is returned
  // for the morning all the same.
  lemma MovedEventStays(zone: int -> int)
    ensures var cal := Calendar(Some(Master(100, 200, zone, None)), [Override(100, 5000, 5100)]);
            ReturnedBy(cal, 0, 300, Instance(100, 200, 0, false)) && !TrueInstance(cal, Instance(100, 200, 0, false)) &&
            !ExactOn(cal, 0, 300)
  {
    var cal := Calendar(Some(Master(100, 200, zone, None)), [Override(100, 5000, 5100)]);
    var inst := Instance(100, 200, 0, false);
    assert Found(cal.master.value, 0, 300, 0) && inst == Occurrence(cal.master.value, 0);
    OverlappingHolds(cal.master.value, 0, 300, 0, inst);
    NamedIsById(cal, 0);
    assert cal.overrides[0].id == 100;
    ReturnedIsTrue(cal, 0, 300, inst);
  }

  ghost predicate ExactOn(cal: Calendar, from: int, to: int) {
    forall inst :: ReturnedBy(cal, from, to, inst) <==> TrueInstance(cal, inst) && Overlaps(inst, from, to)
  }

  // A series in this zone.
  ghost predicate SeriesIn(cal: Calendar, zone: int -> int) {
    cal.master.Some? && cal.master.value.series.Some? && forall w: int :: cal.master.value.zone(w) == zone(w)
  }

  // Overrides are filed by instant but looked up by wall time. So expansion
  // is exact for every series of a zone if and only if the zone's wall times
  // are its instants, as for UTC and floating time.
  lemma ExactForUtcOnly(zone: int -> int)
    requires forall w: int :: w - 93_600 <= zone(w) <= w + 93_600
    ensures (forall cal, from, to | SeriesIn(cal, zone) && WellFormed(cal) && Fits(cal, to) :: ExactOn(cal, from, to)) <==>
            (forall w: int :: zone(w) == w)
  {
    if forall w: int :: zone(w) == w {
      forall cal, from, to | SeriesIn(cal, zone) && WellFormed(cal) && Fits(cal, to) ensures ExactOn(cal, from, to) {
        assert KeysAgree(cal, from, to);
        ExpandExact(cal, from, to);
      }
    } else {
      var w: int :| zone(w) != w;
      MovedOccurrenceStays(zone, w);
    }
  }

  // A single occurrence, and an override that moves it to much later.
  function Moved(zone: int -> int, w: int): Calendar {
    var start := zone(w);
    Calendar(Some(Master(start, start + 1, zone, Some(Series((k: nat) => w, Some(1), true)))),
             [Override(start, start + 10, start + 11)])
  }

  lemma MovedOccurrenceStays(zone: int -> int, w: int)
    requires forall v: int :: v - 93_600 <= zone(v) <= v + 93_600
    requires zone(w) != w
    ensures var cal := Moved(zone, w);
            SeriesIn(cal, zone) && WellFormed(cal) && Fits(cal, zone(w) + 1) && !ExactOn(cal, zone(w), zone(w) + 1)
  {
    var cal := Moved(zone, w);
    var m := cal.master.value;
    var inst := Occurrence(m, 0);
    assert Found(m, zone(w), zone(w) + 1, 0);
    OverlappingHolds(m, zone(w), zone(w) + 1, 0, inst);
    assert cal.overrides[0].id == zone(w);
    NamedIsById(cal, inst.id);
    assert NoneNames(cal, w);
    StandsInIsById(cal, inst);
    assert ReturnedBy(cal, zone(w), zone(w) + 1, inst);
    assert !TrueInstance(cal, inst);
  }

  // ------------------------------------------------------------------- the bounds

  // What the index stores of an object. No end means it never ends.
  datatype Span = Span(start: Option<int>, end: Option<int>, recurring: bool)

  function Widened(b: Span, inst: Instance): Span {
    b.(start := if b.start.None? || inst.start < b.start.value then Some(inst.start) else b.start,
       end := if b.end.Some? && inst.end > b.end.value then Some(inst.end) else b.end)
  }

  function WidenedBy(b: Span, instances: seq<Instance>): Span
    decreases |instances|
  {
    if instances == [] then b else WidenedBy(Widened(b, instances[0]), instances[1..])
  }

  class Bounds {
    var start: Option<int>
    var end: Option<int>
    var recurring: bool

    function At(): Span
      reads this
    {
      Span(start, end, recurring)
    }

    constructor ()
      ensures At() == Span(None, None, false)
    {
      start, end, recurring := None, None, false;
    }

    method Widen(inst: Instance)
      modifies this
      ensures At() == Widened(old(At()), inst)
    {
      if start.None? || inst.start < start.value {
        start := Some(inst.start);
      }
      if end.Some? && inst.end > end.value {
        end := Some(inst.end);
      }
    }

    method WidenOverrides(overrides: seq<Override>)
      modifies this
      ensures At() == WidenedBy(old(At()), Replacements(overrides))
    {
      var i := 0;
      var all := Replacements(overrides);
      assert all[0..] == all;
      while i < |overrides|
        invariant 0 <= i <= |overrides|
        invariant WidenedBy(At(), all[i..]) == WidenedBy(old(At()), all)
      {
        assert all[i..][1..] == all[i + 1..];
        Widen(Replacement(overrides[i]));
        i := i + 1;
      }
    }

    method WidenSeries(m: Master)
      requires m.series.Some? && m.series.value.length.Some?
      modifies this
      ensures At() == WidenedBy(old(At()), AllOccurrences(m))
    {
      var i := 0;
      var all := AllOccurrences(m);
      assert all[0..] == all;
      while i < |all|
        invariant 0 <= i <= |all|
        invariant WidenedBy(At(), all[i..]) == WidenedBy(old(At()), all)
      {
        assert all[i..][1..] == all[i + 1..];
        Widen(Absolute(m, m.series.value.at(i)));
        i := i + 1;
      }
    }
  }

  function Replacements(overrides: seq<Override>): (r: seq<Instance>)
    ensures |r| == |overrides| && forall i | 0 <= i < |r| :: r[i] == Replacement(overrides[i])
  {
    seq(|overrides|, i requires 0 <= i < |overrides| => Replacement(overrides[i]))
  }

  function AllOccurrences(m: Master): (r: seq<Instance>)
    requires m.series.Some? && m.series.value.length.Some?
    ensures |r| == m.series.value.length.value && forall k | 0 <= k < |r| :: r[k] == Absolute(m, m.series.value.at(k))
  {
    seq(m.series.value.length.value, k requires 0 <= k < m.series.value.length.value => Absolute(m, m.series.value.at(k)))
  }

  // The rule has a last occurrence.
  predicate Ends(m: Master) { m.series.Some? ==> m.series.value.bounded && m.series.value.length.Some? }

  function Summary(cal: Calendar): Span {
    match cal.master
    case None =>
      if cal.overrides == [] then Span(None, None, false)
      else Span(Some(cal.overrides[0].start), Some(cal.overrides[0].end), false)
    case Some(m) =>
      var base := Span(Some(m.start), Some(m.end), m.series.Some?);
      if m.series.None? then WidenedBy(base, Replacements(cal.overrides))
      else if !Ends(m) then base.(end := None)
      else WidenedBy(WidenedBy(base, AllOccurrences(m)), Replacements(cal.overrides))
  }

  // The bounds, computed as the object is stored.
  method Summarise(cal: Calendar) returns (b: Bounds)
    ensures fresh(b) && b.At() == Summary(cal) && Bounding(cal, b.start, b.end, b.recurring)
  {
    SummaryBounds(cal);
    b := new Bounds();
    if cal.master.None? {
      if cal.overrides != [] {
        b.start, b.end := Some(cal.overrides[0].start), Some(cal.overrides[0].end);
      }
      return;
    }
    var m := cal.master.value;
    b.start, b.end := Some(m.start), Some(m.end);
    if m.series.None? {
      b.WidenOverrides(cal.overrides);
      return;
    }
    b.recurring := true;
    if !Ends(m) {
      b.end := None;
      return;
    }
    b.WidenSeries(m);
    b.WidenOverrides(cal.overrides);
  }

  predicate Covers(b: Span, inst: Instance) {
    b.start.Some? && b.start.value <= inst.start && (b.end.Some? ==> inst.end <= b.end.value)
  }

  // Widening covers what it is given and still covers what it covered; it
  // goes no further than it has to.
  lemma {:induction false} WidenedCovers(b: Span, instances: seq<Instance>)
    requires b.start.Some?
    ensures var w := WidenedBy(b, instances);
            w.start.Some? && w.start.value <= b.start.value &&
            (w.end.Some? <==> b.end.Some?) && (b.end.Some? ==> b.end.value <= w.end.value) &&
            forall i | 0 <= i < |instances| :: Covers(w, instances[i])
    ensures var w := WidenedBy(b, instances);
            (w.start == b.start || exists i :: 0 <= i < |instances| && w.start == Some(instances[i].start)) &&
            (w.end == b.end || exists i :: 0 <= i < |instances| && w.end == Some(instances[i].end))
    decreases |instances|
  {
    if instances != [] {
      WidenedCovers(Widened(b, instances[0]), instances[1..]);
      assert forall i | 0 < i < |instances| :: instances[i] == instances[1..][i - 1];
    }
  }

  // The instants at which an object with a master starts, its occurrences and
  // its overrides included, and those at which it ends.
  ghost predicate Begins(cal: Calendar, m: Master, t: int) {
    t == m.start || (exists i :: 0 <= i < |cal.overrides| && cal.overrides[i].start == t) ||
    (m.series.Some? && exists k: nat :: (m.series.value.length.Some? ==> k < m.series.value.length.value) &&
                                        t == m.zone(m.series.value.at(k)))
  }

  ghost predicate Finishes(cal: Calendar, m: Master, t: int) {
    t == m.end || (exists i :: 0 <= i < |cal.overrides| && cal.overrides[i].end == t) ||
    (m.series.Some? && exists k: nat :: (m.series.value.length.Some? ==> k < m.series.value.length.value) &&
                                        t == m.zone(m.series.value.at(k)) + (m.end - m.start))
  }

  // What the columns hold: of an object without a master its first override,
  // of a rule that goes on just its first start, and otherwise the first of
  // all starts and the last of all ends.
  ghost predicate Bounding(cal: Calendar, start: Option<int>, end: Option<int>, recurring: bool) {
    match cal.master
    case None =>
      !recurring &&
      if |cal.overrides| == 0 then start.None? && end.None?
      else start == Some(cal.overrides[0].start) && end == Some(cal.overrides[0].end)
    case Some(m) =>
      (recurring <==> m.series.Some?) && start.Some? &&
      if m.series.Some? && !(m.series.value.bounded && m.series.value.length.Some?) then
        start == Some(m.start) && end.None?
      else
        end.Some? && Begins(cal, m, start.value) && Finishes(cal, m, end.value) &&
        (forall t: int | Begins(cal, m, t) :: start.value <= t) && (forall t: int | Finishes(cal, m, t) :: t <= end.value)
  }

  lemma SummaryBounds(cal: Calendar)
    ensures var b := Summary(cal); Bounding(cal, b.start, b.end, b.recurring)
  {
    if cal.master.Some? && Ends(cal.master.value) {
      var m := cal.master.value;
      var base := Span(Some(m.start), Some(m.end), m.series.Some?);
      var own := if m.series.Some? then AllOccurrences(m) else [];
      WidenedCovers(base, own);
      WidenedCovers(WidenedBy(base, own), Replacements(cal.overrides));
      WidenedKind(base, own);
      WidenedKind(WidenedBy(base, own), Replacements(cal.overrides));
      Occasions(cal, m, own);
    }
  }

  lemma {:induction false} WidenedKind(b: Span, instances: seq<Instance>)
    ensures WidenedBy(b, instances).recurring == b.recurring
    decreases |instances|
  {
    if instances != [] {
      WidenedKind(Widened(b, instances[0]), instances[1..]);
    }
  }

  lemma Occasions(cal: Calendar, m: Master, own: seq<Instance>)
    requires Ends(m) && own == if m.series.Some? then AllOccurrences(m) else []
    ensures var all := Replacements(cal.overrides);
            forall t: int :: Begins(cal, m, t) <==>
                             t == m.start || (exists i :: 0 <= i < |all| && all[i].start == t) ||
                             (exists i :: 0 <= i < |own| && own[i].start == t)
    ensures var all := Replacements(cal.overrides);
            forall t: int :: Finishes(cal, m, t) <==>
                             t == m.end || (exists i :: 0 <= i < |all| && all[i].end == t) ||
                             (exists i :: 0 <= i < |own| && own[i].end == t)
  {
  }

  // The bounds of an object whose rule ends cover each of its instances.
  lemma SummaryCovers(cal: Calendar, from: int, to: int, inst: Instance)
    requires cal.master.Some? && Ends(cal.master.value) && ReturnedBy(cal, from, to, inst)
    ensures Covers(Summary(cal), inst) && Summary(cal).end.Some?
  {
    var m := cal.master.value;
    var base := Span(Some(m.start), Some(m.end), m.series.Some?);
    WidenedCovers(base, Replacements(cal.overrides));
    if m.series.Some? {
      WidenedCovers(base, AllOccurrences(m));
      WidenedCovers(WidenedBy(base, AllOccurrences(m)), Replacements(cal.overrides));
    }
    if inst in Kept(cal, from, to) {
      OverlappingHolds(m, from, to, 0, inst);
      var k: nat :| Found(m, from, to, k) && inst == Occurrence(m, k);
      if m.series.Some? {
        assert Within(m.series.value, k);
        assert inst == AllOccurrences(m)[k];
      }
    } else {
      ReplacementCovered(cal, inst);
    }
  }

  lemma ReplacementCovered(cal: Calendar, inst: Instance)
    requires inst.id in ById(cal.overrides) && ById(cal.overrides)[inst.id] == inst
    ensures exists i :: 0 <= i < |cal.overrides| && inst == Replacements(cal.overrides)[i]
  {
    StandsInIsById(cal, inst);
    var i :| 0 <= i < |cal.overrides| && Latest(cal, i) && inst == Replacement(cal.overrides[i]);
    assert inst == Replacements(cal.overrides)[i];
  }
}
