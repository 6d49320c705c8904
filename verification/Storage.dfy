// Stored objects and the change log of their collections.
// internal/storage/objects.go
module Storage {
  import opened Text

  datatype ChangeType = Created | Updated | Deleted

  // One row of the change log: what last happened to one name of a collection.
  datatype Row = Row(collection: int, position: nat, uri: string, change: ChangeType)

  // A collection counts its changes; clients poll the count as a text.
  datatype Collection = Collection(position: nat, ctag: string)

  // What a client stores, and what is stored: the client's bytes, their hash,
  // and the bounds that time queries look at.
  datatype Payload = Payload(raw: string, start: Option<int>, end: Option<int>)
  datatype Object = Object(payload: Payload, etag: string)

  datatype Key = Key(collection: int, uri: string)

  datatype State = State(collections: map<int, Collection>, objects: map<Key, Object>, changes: seq<Row>)

  datatype Result<+T> = Ok(value: T) | NotFound

  type Hash = string -> string

  ghost predicate Injective(hash: Hash) { forall a, b :: hash(a) == hash(b) ==> a == b }

  // ------------------------------------------------------------- the operations

  predicate Names(r: Row, c: int, uri: string) { r.collection == c && r.uri == uri }

  // The log without the row of one name.
  function Pruned(changes: seq<Row>, c: int, uri: string): seq<Row> {
    if changes == [] then []
    else if Names(changes[0], c, uri) then Pruned(changes[1..], c, uri)
    else [changes[0]] + Pruned(changes[1..], c, uri)
  }

  function Recorded(s: State, c: int, uri: string, change: ChangeType): State
    requires c in s.collections
  {
    var n := s.collections[c].position + 1;
    s.(collections := s.collections[c := Collection(n, Decimal(n))],
       changes := Pruned(s.changes, c, uri) + [Row(c, n, uri, change)])
  }

  function PutState(s: State, hash: Hash, c: int, uri: string, p: Payload): Result<State> {
    var key := Key(c, uri);
    if key in s.objects && s.objects[key].etag == hash(p.raw) then Ok(s)
    else if c !in s.collections then NotFound
    else Ok(Recorded(s.(objects := s.objects[key := Object(p, hash(p.raw))]), c, uri,
                     if key in s.objects then Updated else Created))
  }

  function DeleteState(s: State, c: int, uri: string): Result<State> {
    if Key(c, uri) !in s.objects || c !in s.collections then NotFound
    else Ok(Recorded(s.(objects := s.objects - {Key(c, uri)}), c, uri, Deleted))
  }

  // The rows of a collection behind a position, oldest first.
  function RowsSince(changes: seq<Row>, c: int, since: int): (rows: seq<Row>)
    ensures forall r :: r in rows <==> r in changes && r.collection == c && r.position > since
  {
    if changes == [] then []
    else if changes[0].collection == c && changes[0].position > since then [changes[0]] + RowsSince(changes[1..], c, since)
    else RowsSince(changes[1..], c, since)
  }

  // One change has been logged: the collection's position is one further and
  // its ctag with it, the name's row is the newest and its only one, and
  // all other rows are as they were.
  ghost predicate Changed(was: State, now: State, c: int, uri: string, change: ChangeType) {
    c in was.collections &&
    var n := was.collections[c].position + 1;
    now.collections == was.collections[c := Collection(n, Decimal(n))] && now.changes != [] &&
    now.changes[|now.changes| - 1] == Row(c, n, uri, change) &&
    forall r :: r in now.changes <==> r == Row(c, n, uri, change) || (r in was.changes && !(r.collection == c && r.uri == uri))
  }

  lemma RecordedIsChanged(s: State, c: int, uri: string, change: ChangeType)
    requires c in s.collections
    ensures Changed(s, Recorded(s, c, uri, change), c, uri, change)
  {
    PrunedRows(s.changes, c, uri);
  }

  // The tables. Each method is one transaction.
  class Database {
    const hash: Hash
    var collections: map<int, Collection>
    var objects: map<Key, Object>
    var changes: seq<Row>

    function Tables(): State
      reads this
    {
      State(collections, objects, changes)
    }

    constructor (hash: Hash)
      ensures this.hash == hash && Tables() == State(map[], map[], [])
    {
      this.hash := hash;
      collections, objects, changes := map[], map[], [];
    }

    // Inserts or replaces an object. When its bytes change the collection's
    // position advances and the change is logged.
    method PutObject(c: int, uri: string, p: Payload) returns (r: Result<Object>)
      modifies this
      ensures match PutState(old(Tables()), hash, c, uri, p)
              case Ok(s) => Tables() == s && Key(c, uri) in s.objects && r == Ok(s.objects[Key(c, uri)])
              case NotFound => Tables() == old(Tables()) && r == NotFound
      ensures var key := Key(c, uri);
              var same := key in old(objects) && old(objects)[key].etag == hash(p.raw);
              (same ==> Tables() == old(Tables())) &&
              (!same && r.Ok? ==>
                 objects == old(objects)[key := Object(p, hash(p.raw))] &&
                 Changed(old(Tables()), Tables(), c, uri, if key in old(objects) then Updated else Created))
    {
      var key := Key(c, uri);
      var etag := hash(p.raw);
      var found := key in objects;
      if found && etag == objects[key].etag {
        return Ok(objects[key]);
      }
      if c !in collections {
        return NotFound;
      }
      objects := objects[key := Object(p, etag)];
      RecordChange(c, uri, if found then Updated else Created);
      return Ok(objects[key]);
    }

    method DeleteObject(c: int, uri: string) returns (r: Result<()>)
      modifies this
      ensures match DeleteState(old(Tables()), c, uri)
              case Ok(s) => Tables() == s && r == Ok(())
              case NotFound => Tables() == old(Tables()) && r == NotFound
      ensures r.Ok? <==> Key(c, uri) in old(objects) && c in old(collections)
      ensures r.Ok? ==> objects == old(objects) - {Key(c, uri)} && Changed(old(Tables()), Tables(), c, uri, Deleted)
    {
      if Key(c, uri) !in objects || c !in collections {
        return NotFound;
      }
      objects := objects - {Key(c, uri)};
      RecordChange(c, uri, Deleted);
      return Ok(());
    }

    // Advances the collection's position and logs the change; only the latest
    // change of a name is kept.
    method RecordChange(c: int, uri: string, change: ChangeType)
      requires c in collections
      modifies this`collections, this`changes
      ensures Tables() == Recorded(old(Tables()), c, uri, change)
      ensures Changed(old(Tables()), Tables(), c, uri, change)
    {
      RecordedIsChanged(Tables(), c, uri, change);
      var position := collections[c].position + 1;
      collections := collections[c := Collection(position, Decimal(position))];
      var kept: seq<Row> := [];
      var i := 0;
      assert changes[0..] == changes;
      while i < |changes|
        invariant 0 <= i <= |changes|
        invariant kept + Pruned(changes[i..], c, uri) == Pruned(changes, c, uri)
        invariant collections == old(collections)[c := Collection(position, Decimal(position))] && changes == old(changes)
      {
        assert changes[i..][1..] == changes[i + 1..];
        if !Names(changes[i], c, uri) {
          RegroupRows(kept, changes[i], Pruned(changes[i + 1..], c, uri));
          kept := kept + [changes[i]];
        }
        i := i + 1;
      }
      assert kept + [] == kept;
      changes := kept + [Row(c, position, uri, change)];
    }

    method ObjectByURI(c: int, uri: string) returns (r: Result<Object>)
      ensures r == if Key(c, uri) in objects then Ok(objects[Key(c, uri)]) else NotFound
    {
      return if Key(c, uri) in objects then Ok(objects[Key(c, uri)]) else NotFound;
    }

    // What a collection has recorded since a position, and where it stands.
    method ChangesSince(c: int, since: int) returns (rows: seq<Row>, position: int, ok: bool)
      ensures ok == (c in collections)
      ensures ok ==> rows == RowsSince(changes, c, since) && position == collections[c].position
    {
      if c !in collections {
        return [], 0, false;
      }
      position, ok := collections[c].position, true;
      rows := [];
      var i := 0;
      assert changes[0..] == changes;
      while i < |changes|
        invariant 0 <= i <= |changes|
        invariant rows + RowsSince(changes[i..], c, since) == RowsSince(changes, c, since)
      {
        assert changes[i..][1..] == changes[i + 1..];
        if changes[i].collection == c && changes[i].position > since {
          RegroupRows(rows, changes[i], RowsSince(changes[i + 1..], c, since));
          rows := rows + [changes[i]];
        }
        i := i + 1;
      }
      assert rows + [] == rows;
    }
  }

  lemma RegroupRows(a: seq<Row>, r: Row, b: seq<Row>)
    ensures a + ([r] + b) == (a + [r]) + b
  {
  }

  // -------------------------------------------------------------- the invariant

  // Within a collection the log ascends and holds each name once.
  predicate Ordered(changes: seq<Row>) {
    forall i, j | 0 <= i < j < |changes| :: Precedes(changes[i], changes[j])
  }

  predicate Precedes(a: Row, b: Row) {
    a.collection == b.collection ==> a.position < b.position && a.uri != b.uri
  }

  // A row counts among its collection's changes and says whether the object
  // is gone.
  predicate Truthful(s: State, r: Row) {
    r.collection in s.collections && 1 <= r.position <= s.collections[r.collection].position &&
    (r.change == Deleted <==> Key(r.collection, r.uri) !in s.objects)
  }

  predicate Logged(s: State, c: int, uri: string) { exists r :: r in s.changes && Names(r, c, uri) }

  predicate AtPosition(s: State, c: int, n: nat) { exists r :: r in s.changes && r.collection == c && r.position == n }

  // The position of a collection is that of its newest row, and its ctag.
  predicate Counted(s: State, c: int)
    requires c in s.collections
  {
    var n := s.collections[c].position;
    s.collections[c].ctag == Decimal(n) && (n > 0 ==> AtPosition(s, c, n))
  }

  predicate Valid(s: State, hash: Hash) {
    Ordered(s.changes) &&
    (forall r | r in s.changes :: Truthful(s, r)) &&
    (forall c | c in s.collections :: Counted(s, c)) &&
    (forall k | k in s.objects :: Logged(s, k.collection, k.uri) && s.objects[k].etag == hash(s.objects[k].payload.raw))
  }

  lemma {:induction false} PrunedRows(changes: seq<Row>, c: int, uri: string)
    ensures forall r :: r in Pruned(changes, c, uri) <==> r in changes && !Names(r, c, uri)
  {
    if changes != [] {
      PrunedRows(changes[1..], c, uri);
    }
  }

  lemma {:induction false} PrunedOrdered(changes: seq<Row>, c: int, uri: string)
    requires Ordered(changes)
    ensures Ordered(Pruned(changes, c, uri))
  {
    if changes != [] {
      PrunedOrdered(changes[1..], c, uri);
      PrunedRows(changes[1..], c, uri);
      assert forall r | r in changes[1..] :: Precedes(changes[0], r);
    }
  }

  lemma RecordedOrdered(s: State, c: int, uri: string, change: ChangeType)
    requires Ordered(s.changes) && c in s.collections
    requires forall r | r in s.changes && r.collection == c :: r.position <= s.collections[c].position
    ensures Ordered(Recorded(s, c, uri, change).changes)
  {
    PrunedOrdered(s.changes, c, uri);
    PrunedRows(s.changes, c, uri);
    var kept, last := Pruned(s.changes, c, uri), Row(c, s.collections[c].position + 1, uri, change);
    assert forall r | r in kept :: Precedes(r, last);
  }

  // One logged change of one object: the log says what it should again.
  lemma RecordedValid(s: State, hash: Hash, c: int, uri: string, change: ChangeType, objects: map<Key, Object>)
    requires Valid(s, hash) && c in s.collections
    requires forall k | k != Key(c, uri) :: (k in objects <==> k in s.objects) && (k in objects ==> objects[k] == s.objects[k])
    requires change == Deleted <==> Key(c, uri) !in objects
    requires Key(c, uri) in objects ==> objects[Key(c, uri)].etag == hash(objects[Key(c, uri)].payload.raw)
    ensures Valid(Recorded(s.(objects := objects), c, uri, change), hash)
  {
    var was := s.(objects := objects);
    var next := Recorded(was, c, uri, change);
    var last := Row(c, s.collections[c].position + 1, uri, change);
    LoggedBefore(s, c);
    RecordedOrdered(was, c, uri, change);
    PrunedRows(s.changes, c, uri);
    assert last in next.changes && Names(last, c, uri);
    StillTruthful(s, next, c, uri, last);
    forall d | d in next.collections ensures Counted(next, d) {
      if d == c {
        assert AtPosition(next, c, last.position);
      } else {
        StillCounted(s, next, c, uri, d);
      }
    }
    forall k | k in next.objects ensures Logged(next, k.collection, k.uri) {
      StillLogged(s, next, c, uri, k);
    }
  }

  lemma LoggedBefore(s: State, c: int)
    requires c in s.collections && forall r | r in s.changes :: Truthful(s, r)
    ensures forall r | r in s.changes && r.collection == c :: r.position <= s.collections[c].position
  {
    assert forall r | r in s.changes :: Truthful(s, r);
  }

  lemma StillTruthful(s: State, next: State, c: int, uri: string, last: Row)
    requires (forall r | r in s.changes :: Truthful(s, r)) && Truthful(next, last)
    requires forall r | r in next.changes && r != last :: r in s.changes && !Names(r, c, uri)
    requires forall k | k != Key(c, uri) :: k in next.objects <==> k in s.objects
    requires forall d | d in s.collections :: d in next.collections && s.collections[d].position <= next.collections[d].position
    ensures forall r | r in next.changes :: Truthful(next, r)
  {
    forall r | r in next.changes ensures Truthful(next, r) {
      if r != last {
        assert r in s.changes && Truthful(s, r);
      }
    }
  }

  lemma StillLogged(s: State, next: State, c: int, uri: string, k: Key)
    requires Logged(next, c, uri) && (k != Key(c, uri) ==> Logged(s, k.collection, k.uri))
    requires forall r | r in s.changes && !Names(r, c, uri) :: r in next.changes
    ensures Logged(next, k.collection, k.uri)
  {
    if k != Key(c, uri) {
      var r :| r in s.changes && Names(r, k.collection, k.uri);
      assert r in next.changes;
    }
  }

  lemma StillCounted(s: State, next: State, c: int, uri: string, d: int)
    requires d != c && d in s.collections && d in next.collections && next.collections[d] == s.collections[d]
    requires Counted(s, d) && forall r | r in s.changes && !Names(r, c, uri) :: r in next.changes
    ensures Counted(next, d)
  {
    var n := s.collections[d].position;
    if n > 0 {
      var r :| r in s.changes && r.collection == d && r.position == n;
      assert r in next.changes;
    }
  }

  lemma PutKeepsValid(s: State, hash: Hash, c: int, uri: string, p: Payload)
    requires Valid(s, hash)
    ensures var r := PutState(s, hash, c, uri, p); r.Ok? ==> Valid(r.value, hash)
  {
    var key := Key(c, uri);
    if c in s.collections {
      RecordedValid(s, hash, c, uri, if key in s.objects then Updated else Created, s.objects[key := Object(p, hash(p.raw))]);
    }
  }

  lemma DeleteKeepsValid(s: State, hash: Hash, c: int, uri: string)
    requires Valid(s, hash)
    ensures var r := DeleteState(s, c, uri); r.Ok? ==> Valid(r.value, hash)
  {
    if c in s.collections {
      RecordedValid(s, hash, c, uri, Deleted, s.objects - {Key(c, uri)});
    }
  }

  // Writing the bytes an object already has is told from every other write:
  // it changes nothing at all, and any other moves the collection's position.
  lemma RewriteIsNoChange(s: State, hash: Hash, c: int, uri: string, p: Payload)
    requires Valid(s, hash) && Injective(hash) && c in s.collections
    ensures var r := PutState(s, hash, c, uri, p);
            r.Ok? && Key(c, uri) in r.value.objects && r.value.objects[Key(c, uri)].payload.raw == p.raw &&
            (r.value == s <==> Key(c, uri) in s.objects && s.objects[Key(c, uri)].payload.raw == p.raw) &&
            (r.value != s ==> r.value.collections[c].position == s.collections[c].position + 1)
  {
    var key := Key(c, uri);
    if key in s.objects {
      assert Logged(s, key.collection, key.uri) && s.objects[key].etag == hash(s.objects[key].payload.raw);
    }
    var r := PutState(s, hash, c, uri, p);
    assert r.Ok?;
    assert r.value == s || r.value.collections[c].position != s.collections[c].position;
  }

  // ------------------------------------------------------------------ every run

  datatype Write = Create(collection: int) | Put(c: int, uri: string, p: Payload) | Delete(c: int, uri: string)

  // A write that fails is rolled back.
  function Execute(s: State, hash: Hash, w: Write): State {
    match w
    case Create(c) =>
      if c in s.collections then s else s.(collections := s.collections[c := Collection(0, Decimal(0))])
    case Put(c, uri, p) =>
      (match PutState(s, hash, c, uri, p)
       case Ok(next) => next
       case NotFound => s)
    case Delete(c, uri) =>
      (match DeleteState(s, c, uri)
       case Ok(next) => next
       case NotFound => s)
  }

  function Run(hash: Hash, writes: seq<Write>): State {
    if writes == [] then State(map[], map[], [])
    else Execute(Run(hash, writes[..|writes| - 1]), hash, writes[|writes| - 1])
  }

  // The names a collection has held at any moment of a run.
  function EverHeld(hash: Hash, writes: seq<Write>): set<Key> {
    if writes == [] then {}
    else EverHeld(hash, writes[..|writes| - 1]) + Run(hash, writes).objects.Keys
  }

  predicate LoggedExactly(s: State, held: set<Key>) {
    (forall k | k in held :: Logged(s, k.collection, k.uri)) &&
    (forall r | r in s.changes :: Key(r.collection, r.uri) in held)
  }

  lemma CreateKeepsValid(s: State, hash: Hash, c: int)
    requires Valid(s, hash)
    ensures Valid(Execute(s, hash, Create(c)), hash)
  {
    var next := Execute(s, hash, Create(c));
    forall r | r in next.changes ensures Truthful(next, r) {
      assert Truthful(s, r);
    }
    forall d | d in next.collections ensures Counted(next, d) {
      if d in s.collections {
        assert Counted(s, d);
      }
    }
    forall k | k in next.objects ensures Logged(next, k.collection, k.uri) {
      assert Logged(s, k.collection, k.uri);
    }
  }

  lemma ExecuteKeepsValid(s: State, hash: Hash, w: Write)
    requires Valid(s, hash)
    ensures Valid(Execute(s, hash, w), hash)
  {
    match w
    case Create(c) => CreateKeepsValid(s, hash, c);
    case Put(c, uri, p) => PutKeepsValid(s, hash, c, uri, p);
    case Delete(c, uri) => DeleteKeepsValid(s, hash, c, uri);
  }

  // A write logs its own name and forgets none.
  lemma ExecuteLogs(s: State, hash: Hash, w: Write, held: set<Key>)
    requires Valid(s, hash) && LoggedExactly(s, held) && s.objects.Keys <= held
    ensures var next := Execute(s, hash, w); LoggedExactly(next, held + next.objects.Keys)
  {
    var next := Execute(s, hash, w);
    if next != s && !w.Create? {
      PrunedRows(s.changes, w.c, w.uri);
      var last := next.changes[|next.changes| - 1];
      assert last in next.changes && Names(last, w.c, w.uri);
      assert Logged(next, w.c, w.uri);
      forall k | k in held ensures Logged(next, k.collection, k.uri) {
        StillLogged(s, next, w.c, w.uri, k);
      }
    } else {
      forall k | k in held ensures Logged(next, k.collection, k.uri) {
        assert Logged(s, k.collection, k.uri);
      }
    }
  }

  // In every state a run of creations, writes and deletions can reach: the
  // log ascends, its newest row carries the collection's position, it holds
  // one row for each name ever held and none for another, and a row says
  // deleted exactly when the object is absent.
  lemma {:induction false} RunIsValid(hash: Hash, writes: seq<Write>)
    ensures Valid(Run(hash, writes), hash)
    ensures LoggedExactly(Run(hash, writes), EverHeld(hash, writes))
    ensures Run(hash, writes).objects.Keys <= EverHeld(hash, writes)
    decreases |writes|
  {
    if writes != [] {
      var before := writes[..|writes| - 1];
      RunIsValid(hash, before);
      ExecuteKeepsValid(Run(hash, before), hash, writes[|writes| - 1]);
      ExecuteLogs(Run(hash, before), hash, writes[|writes| - 1], EverHeld(hash, before));
    }
  }

  // Writes to one collection are none of another's business.
  lemma OthersUntouched(s: State, hash: Hash, w: Write, d: int, since: int)
    requires !w.Create? && w.c != d
    ensures var next := Execute(s, hash, w);
            (d in next.collections <==> d in s.collections) &&
            (d in s.collections ==> next.collections[d] == s.collections[d]) &&
            RowsSince(next.changes, d, since) == RowsSince(s.changes, d, since) &&
            forall uri :: (Key(d, uri) in next.objects <==> Key(d, uri) in s.objects) &&
                          (Key(d, uri) in s.objects ==> next.objects[Key(d, uri)] == s.objects[Key(d, uri)])
  {
    if Execute(s, hash, w) != s {
      RowsAppend(Pruned(s.changes, w.c, w.uri), Execute(s, hash, w).changes[|Execute(s, hash, w).changes| - 1], d, since);
      RowsPruned(s.changes, w.c, w.uri, d, since);
    }
  }

  lemma {:induction false} RowsAppend(changes: seq<Row>, last: Row, d: int, since: int)
    requires last.collection != d
    ensures RowsSince(changes + [last], d, since) == RowsSince(changes, d, since)
  {
    if changes == [] {
      assert (changes + [last])[1..] == [];
    } else {
      assert (changes + [last])[1..] == changes[1..] + [last];
      RowsAppend(changes[1..], last, d, since);
    }
  }

  lemma {:induction false} RowsPruned(changes: seq<Row>, c: int, uri: string, d: int, since: int)
    requires c != d
    ensures RowsSince(Pruned(changes, c, uri), d, since) == RowsSince(changes, d, since)
  {
    if changes != [] {
      RowsPruned(changes[1..], c, uri, d, since);
    }
  }

  // The rows come oldest first, each name once.
  lemma {:induction false} RowsOrdered(changes: seq<Row>, c: int, since: int)
    requires Ordered(changes)
    ensures Ordered(RowsSince(changes, c, since))
    ensures var rows := RowsSince(changes, c, since);
            forall i, j | 0 <= i < j < |rows| :: rows[i].position < rows[j].position && rows[i].uri != rows[j].uri
  {
    if changes != [] {
      RowsOrdered(changes[1..], c, since);
      assert forall r | r in changes[1..] :: Precedes(changes[0], r);
    }
  }
}
