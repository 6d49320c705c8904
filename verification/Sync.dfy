// Synchronising a client with a collection, as section 3.2 of RFC 6578 has it.
// internal/dav/sync.go
module Sync {
  import opened Text
  import opened Storage

  // ------------------------------------------------------------------- tokens

  const PREFIX := "urn:edav:sync:"

  const MAX_INT64: int := 0x7FFF_FFFF_FFFF_FFFF

  function Encode(position: nat): string { PREFIX + Decimal(position) }

  function CutPrefix(s: string, prefix: string): Option<string> {
    if |s| >= |prefix| && s[..|prefix|] == prefix then Some(s[|prefix|..]) else None
  }

  // A decimal number of 64 bits, with or without a sign.
  function ParseInt(s: string): Option<int> {
    var digits := if s != "" && (s[0] == '+' || s[0] == '-') then s[1..] else s;
    if digits == "" || !AllDigits(digits) then None
    else
      var n: int := DecimalValue(digits);
      var v := if s[0] == '-' then -n else n;
      if -MAX_INT64 - 1 <= v <= MAX_INT64 then Some(v) else None
  }

  // The position a token stands for. The empty token starts at zero; a token
  // of another shape, or ahead of the collection, is refused.
  function Decode(token: string, current: int): (r: Option<int>)
    ensures r.Some? && current >= 0 ==> 0 <= r.value <= current
  {
    if token == "" then Some(0)
    else
      match CutPrefix(token, PREFIX)
      case None => None
      case Some(digits) =>
        match ParseInt(digits)
        case None => None
        case Some(n) => if n < 0 || n > current then None else Some(n)
  }

  // A text is a number: digits, behind a sign or none, of a value that 64 bits
  // hold.
  ghost predicate Numeral(d: string, n: int) {
    -0x8000_0000_0000_0000 <= n <= 0x7FFF_FFFF_FFFF_FFFF &&
    exists sign, digits :: SignedDigits(d, sign, digits) && n == Signed(sign, digits)
  }

  predicate SignedDigits(d: string, sign: string, digits: string) {
    d == sign + digits && sign in {"", "+", "-"} && digits != "" && AllDigits(digits)
  }

  function Signed(sign: string, digits: string): int
    requires AllDigits(digits)
  {
    var v: int := DecimalValue(digits);
    if sign == "-" then -v else v
  }

  lemma ParsesNumerals(d: string, n: int)
    ensures ParseInt(d) == Some(n) <==> Numeral(d, n)
  {
    forall sign, digits | SignedDigits(d, sign, digits)
      ensures digits == (if d[0] == '+' || d[0] == '-' then d[1..] else d) && (sign == "-" <==> d[0] == '-')
    {
      NumeralParts(d, sign, digits);
    }
    if ParseInt(d).Some? {
      var sign := if d[0] == '+' || d[0] == '-' then d[..1] else "";
      var digits := if d[0] == '+' || d[0] == '-' then d[1..] else d;
      assert d == sign + digits && (sign != "" ==> sign == [d[0]]);
      assert SignedDigits(d, sign, digits);
    }
  }

  lemma NumeralParts(d: string, sign: string, digits: string)
    requires SignedDigits(d, sign, digits)
    ensures d != ""
    ensures (if d != "" && (d[0] == '+' || d[0] == '-') then d[1..] else d) == digits
    ensures d[0] == '-' <==> sign == "-"
  {
    assert digits[0] in digits;
    if sign == "" {
      assert d == digits;
    } else {
      assert d[0] == sign[0] && d[1..] == digits;
    }
  }

  // A token means a position: the empty one the beginning, and otherwise the
  // prefix and a number that is neither negative nor ahead of the collection.
  ghost predicate Means(token: string, current: int, n: int) {
    if token == "" then n == 0
    else exists d :: token == "urn:edav:sync:" + d && Numeral(d, n) && 0 <= n <= current
  }

  // A token is understood as the position it means, and refused if it means
  // none.
  lemma DecodesExactly(token: string, current: int, n: int)
    ensures Decode(token, current) == Some(n) <==> Means(token, current, n)
  {
    if token != "" {
      PrefixIsCut(token, PREFIX);
      match CutPrefix(token, PREFIX)
      case None =>
      case Some(d) =>
        ParsesNumerals(d, n);
        forall e | token == PREFIX + e ensures e == d {
          PrefixCut(PREFIX, e);
        }
    }
  }

  lemma PrefixIsCut(token: string, prefix: string)
    ensures match CutPrefix(token, prefix)
            case Some(d) => token == prefix + d
            case None => forall d :: token != prefix + d
  {
    forall d | token == prefix + d ensures CutPrefix(token, prefix) == Some(d) {
      PrefixCut(prefix, d);
    }
  }

  // So these are refused: a token with another prefix, and one whose rest is
  // no number, is negative, or is ahead of the collection.
  lemma Refused(token: string, current: int)
    requires token != ""
    requires (forall d :: token != "urn:edav:sync:" + d) ||
             exists d :: token == "urn:edav:sync:" + d && forall n | Numeral(d, n) :: n < 0 || n > current
    ensures Decode(token, current) == None
  {
    if n :| Decode(token, current) == Some(n) {
      DecodesExactly(token, current, n);
      var d :| token == PREFIX + d && Numeral(d, n) && 0 <= n <= current;
      forall e | token == PREFIX + e ensures e == d {
        PrefixCut(PREFIX, d);
        PrefixCut(PREFIX, e);
      }
    }
  }

  // Another server's token, words for a number, nothing, a sign.
  lemma ForeignTokens(current: int)
    ensures Decode("urn:elsewhere:sync:1", current) == None && Decode("http://other.example/sync/42", current) == None
    ensures Decode("urn:edav:sync:" + "banana", current) == None && Decode("urn:edav:sync:" + "", current) == None
    ensures Decode("urn:edav:sync:" + "-1", current) == None
  {
    assert PREFIX[4] == 'e' && PREFIX[5] == 'd' && "urn:elsewhere:sync:1"[5] == 'l';
    assert "http://other.example/sync/42"[0] == 'h' && PREFIX[0] == 'u';
    PrefixCut(PREFIX, "banana");
    PrefixCut(PREFIX, "");
    PrefixCut(PREFIX, "-1");
    assert 'b' in "banana" by { assert "banana"[0] == 'b'; }
    MinusOne();
  }

  lemma MinusOne()
    ensures ParseInt("-1") == Some(-1)
  {
    assert "-1"[1..] == "1" && "1"[..0] == "";
    assert AllDigits("1") && DecimalValue("1") == 1;
  }

  // A token that was given out is understood if and only if it is not ahead
  // of the collection.
  lemma DecodeEncode(n: nat, current: int)
    requires current <= MAX_INT64
    ensures Decode(Encode(n), current) == if n <= current then Some(n) else None
  {
    var d := Decimal(n);
    DecimalRoundTrip(n);
    assert d[0] in d && IsDigit(d[0]);
    PrefixCut(PREFIX, d);
    assert Encode(n) != "";
  }

  lemma PrefixCut(prefix: string, d: string)
    ensures CutPrefix(prefix + d, prefix) == Some(d)
  {
  }

  // The position a token names, for as long as it is one of ours.
  function TokenPosition(token: string): nat {
    match CutPrefix(token, PREFIX)
    case None => 0
    case Some(digits) => if AllDigits(digits) then DecimalValue(digits) else 0
  }

  predicate Issued(token: string) { token == "" || token == Encode(TokenPosition(token)) }

  lemma PositionOfToken(n: nat)
    ensures TokenPosition(Encode(n)) == n && Issued(Encode(n)) && Issued("") && TokenPosition("") == 0
  {
    DecimalRoundTrip(n);
    PrefixCut(PREFIX, Decimal(n));
  }

  // ------------------------------------------------------------ one collection

  // A member of a collection with the bytes it had when it was read.
  datatype Member = Member(uri: string, raw: string)

  datatype Changes = Changes(updated: seq<Member>, deleted: seq<string>)

  // The object of one changed name, or that it is gone.
  function Gathered(s: State, c: int, uri: string, g: Changes): Changes {
    if Key(c, uri) in s.objects then g.(updated := g.updated + [Member(uri, s.objects[Key(c, uri)].payload.raw)])
    else g.(deleted := g.deleted + [uri])
  }

  predicate Full(g: Changes, limit: int) { limit > 0 && |g.updated| + |g.deleted| >= limit }

  function Gather(s: State, c: int, rows: seq<Row>, limit: int): Changes {
    if rows == [] then Changes([], [])
    else
      var g := Gather(s, c, rows[..|rows| - 1], limit);
      if Full(g, limit) then g else Gathered(s, c, rows[|rows| - 1].uri, g)
  }

  datatype SyncResult = Answer(changes: Changes, token: string) | InvalidToken | NoCollection

  // One request: the token is understood or refused, and the rows behind it
  // become lists of names to fetch and names that are gone.
  method CollectSync(db: Database, c: int, known: int, token: string, limit: int) returns (r: SyncResult)
    ensures r == InvalidToken <==> forall n :: !Means(token, known, n)
    ensures r == match Decode(token, known)
                 case None => InvalidToken
                 case Some(since) =>
                   if c !in db.collections then NoCollection
                   else Answer(Gather(db.Tables(), c, RowsSince(db.changes, c, since), limit),
                               Encode(db.collections[c].position))
  {
    forall n ensures Decode(token, known) == Some(n) <==> Means(token, known, n) {
      DecodesExactly(token, known, n);
    }
    var since := Decode(token, known);
    if since.None? {
      return InvalidToken;
    }
    r := CollectSince(db, c, since.value, limit);
  }

  method CollectSince(db: Database, c: int, since: int, limit: int) returns (r: SyncResult)
    ensures r == if c !in db.collections then NoCollection
                 else Answer(Gather(db.Tables(), c, RowsSince(db.changes, c, since), limit),
                             Encode(db.collections[c].position))
  {
    var rows, position, ok := db.ChangesSince(c, since);
    if !ok {
      return NoCollection;
    }
    var out := Changes([], []);
    var i := 0;
    while i < |rows|
      invariant 0 <= i <= |rows|
      invariant out == Gather(db.Tables(), c, rows[..i], limit)
    {
      assert rows[..i + 1][..i] == rows[..i];
      if Full(out, limit) {
        StaysFull(db.Tables(), c, rows, limit, i);
        return Answer(out, Encode(position));
      }
      var o := db.ObjectByURI(c, rows[i].uri);
      match o {
        case NotFound =>
          out := out.(deleted := out.deleted + [rows[i].uri]);
        case Ok(found) =>
          out := out.(updated := out.updated + [Member(rows[i].uri, found.payload.raw)]);
      }
      i := i + 1;
    }
    assert rows[..|rows|] == rows;
    return Answer(out, Encode(position));
  }

  lemma {:induction false} StaysFull(s: State, c: int, rows: seq<Row>, limit: int, i: nat)
    requires i <= |rows| && Full(Gather(s, c, rows[..i], limit), limit)
    ensures Gather(s, c, rows, limit) == Gather(s, c, rows[..i], limit)
    decreases |rows|
  {
    if i < |rows| {
      assert rows[..|rows| - 1][..i] == rows[..i];
      StaysFull(s, c, rows[..|rows| - 1], limit, i);
    } else {
      assert rows[..i] == rows;
    }
  }

  // ------------------------------------------------------------------ the client

  type Held = map<string, string>

  function Merged(held: Held, updated: seq<Member>): Held {
    if updated == [] then held
    else
      var m := updated[|updated| - 1];
      Merged(held, updated[..|updated| - 1])[m.uri := m.raw]
  }

  // What the client holds when it has taken in an answer.
  function TakenIn(held: Held, g: Changes): Held {
    var merged := Merged(held, g.updated);
    map uri | uri in merged && uri !in g.deleted :: merged[uri]
  }

  // An answer speaks of a name at most once.
  predicate OneEach(g: Changes) {
    (forall i, j | 0 <= i < j < |g.updated| :: g.updated[i].uri != g.updated[j].uri) &&
    (forall m | m in g.updated :: m.uri !in g.deleted)
  }

  predicate Mentions(g: Changes, uri: string) { uri in g.deleted || exists m :: m in g.updated && m.uri == uri }

  lemma {:induction false} MergedHolds(held: Held, updated: seq<Member>, uri: string)
    requires forall i, j | 0 <= i < j < |updated| :: updated[i].uri != updated[j].uri
    ensures (forall m | m in updated :: m.uri != uri) ==>
              (uri in Merged(held, updated) <==> uri in held) && (uri in held ==> Merged(held, updated)[uri] == held[uri])
    ensures forall m | m in updated && m.uri == uri :: uri in Merged(held, updated) && Merged(held, updated)[uri] == m.raw
    decreases |updated|
  {
    if updated != [] {
      var front, last := updated[..|updated| - 1], updated[|updated| - 1];
      MergedHolds(held, front, uri);
      assert forall m :: m in updated <==> m in front || m == last;
      assert forall m | m in front :: m.uri != last.uri;
    }
  }

  // The client and the collection have the same bytes for a name, or neither
  // has any.
  predicate Same(s: State, c: int, held: Held, uri: string) {
    (uri in held <==> Key(c, uri) in s.objects) &&
    (uri in held && Key(c, uri) in s.objects ==> held[uri] == s.objects[Key(c, uri)].payload.raw)
  }

  predicate Newer(s: State, c: int, uri: string, position: int) {
    exists r :: r in s.changes && Names(r, c, uri) && r.position > position
  }

  // Every name the client is wrong about has been logged since.
  ghost predicate Behind(s: State, c: int, held: Held, position: int) {
    forall uri :: Newer(s, c, uri, position) || Same(s, c, held, uri)
  }

  // What a gathered name amounts to for the client that takes it in.
  predicate SaysNow(s: State, c: int, g: Changes, uri: string) {
    if Key(c, uri) in s.objects then Member(uri, s.objects[Key(c, uri)].payload.raw) in g.updated
    else uri in g.deleted
  }

  lemma TakenInIsSame(s: State, c: int, held: Held, g: Changes, uri: string)
    requires OneEach(g)
    ensures SaysNow(s, c, g, uri) ==> Same(s, c, TakenIn(held, g), uri)
    ensures !Mentions(g, uri) ==> (Same(s, c, TakenIn(held, g), uri) <==> Same(s, c, held, uri))
  {
    MergedHolds(held, g.updated, uri);
  }

  predicate Among(rows: seq<Row>, uri: string) { exists r :: r in rows && r.uri == uri }

  predicate Distinct(rows: seq<Row>) { forall i, j | 0 <= i < j < |rows| :: rows[i].uri != rows[j].uri }

  // What has been gathered for some rows speaks of their names and no others.
  ghost predicate Covers(g: Changes, rows: seq<Row>) {
    OneEach(g) && forall uri :: Mentions(g, uri) <==> Among(rows, uri)
  }

  lemma GatherOne(s: State, c: int, g: Changes, rows: seq<Row>, row: Row)
    requires Covers(g, rows) && Distinct(rows + [row])
    ensures var next := Gathered(s, c, row.uri, g);
            Covers(next, rows + [row]) && SaysNow(s, c, next, row.uri) &&
            forall uri | uri != row.uri :: SaysNow(s, c, next, uri) <==> SaysNow(s, c, g, uri)
  {
    var next := Gathered(s, c, row.uri, g);
    NotYetAmong(rows, row);
    assert !Mentions(g, row.uri);
    if Key(c, row.uri) in s.objects {
      var m := Member(row.uri, s.objects[Key(c, row.uri)].payload.raw);
      assert next.updated == g.updated + [m];
      assert forall x :: x in next.updated <==> x in g.updated || x == m;
      assert forall i | 0 <= i < |g.updated| :: g.updated[i] in g.updated && g.updated[i].uri != m.uri;
    }
    forall uri ensures Mentions(next, uri) <==> Among(rows + [row], uri) {
      assert Mentions(next, uri) <==> Mentions(g, uri) || uri == row.uri;
      AmongNext(rows, row, uri);
    }
  }

  lemma NotYetAmong(rows: seq<Row>, row: Row)
    requires Distinct(rows + [row])
    ensures !Among(rows, row.uri)
  {
    var all := rows + [row];
    assert forall i | 0 <= i < |rows| :: rows[i] == all[i] && all[i].uri != all[|rows|].uri;
  }

  lemma AmongNext(rows: seq<Row>, row: Row, uri: string)
    ensures Among(rows + [row], uri) <==> Among(rows, uri) || uri == row.uri
  {
    var all := rows + [row];
    assert forall r :: r in all <==> r in rows || r == row;
    assert row in all;
  }

  // ------------------------------------------------------------ the transitions

  datatype Client = Client(token: string, held: Held)

  // How far a request for changes has come: the reads of one request are
  // separate, and anything may be written between them.
  datatype Phase =
    | Idle
    | Resolved(since: int)
    | Positioned(since: int, current: nat)
    | Fetching(since: int, current: nat, rows: seq<Row>, k: nat, changes: Changes)

  datatype World = World(server: State, client: Client, phase: Phase)

  datatype Action =
    | Writes(write: Write)
    | ReadCollection
    | ReadSequence
    | ReadLog
    | ReadObject
    | TakeAnswer
    | Fail

  // One step, where it can be taken. A client whose token is refused throws
  // its copy away and starts over.
  function Step(w: World, hash: Hash, c: int, a: Action, limit: int): Option<World> {
    match a
    case Writes(write) => Some(w.(server := Execute(w.server, hash, write)))
    case ReadCollection =>
      if !w.phase.Idle? || c !in w.server.collections then None
      else
        (match Decode(w.client.token, w.server.collections[c].position)
         case Some(since) => Some(w.(phase := Resolved(since)))
         case None => Some(w.(client := Client("", map[]))))
    case ReadSequence =>
      if !w.phase.Resolved? || c !in w.server.collections then None
      else Some(w.(phase := Positioned(w.phase.since, w.server.collections[c].position)))
    case ReadLog =>
      if !w.phase.Positioned? then None
      else Some(w.(phase := Fetching(w.phase.since, w.phase.current,
                                     RowsSince(w.server.changes, c, w.phase.since), 0, Changes([], []))))
    case ReadObject =>
      if !w.phase.Fetching? || w.phase.k >= |w.phase.rows| || Full(w.phase.changes, limit) then None
      else Some(w.(phase := w.phase.(k := w.phase.k + 1,
                                     changes := Gathered(w.server, c, w.phase.rows[w.phase.k].uri, w.phase.changes))))
    case TakeAnswer =>
      if !w.phase.Fetching? || (w.phase.k < |w.phase.rows| && !Full(w.phase.changes, limit)) then None
      else Some(World(w.server, Client(Encode(w.phase.current), TakenIn(w.client.held, w.phase.changes)), Idle))
    case Fail => Some(w.(phase := Idle))
  }

  // The world after those of the actions that could be taken.
  function Reached(hash: Hash, c: int, actions: seq<Action>, limit: int): World {
    if actions == [] then World(State(map[], map[], []), Client("", map[]), Idle)
    else
      var w := Reached(hash, c, actions[..|actions| - 1], limit);
      match Step(w, hash, c, actions[|actions| - 1], limit)
      case Some(next) => next
      case None => w
  }

  function Position(s: State, c: int): nat { if c in s.collections then s.collections[c].position else 0 }

  // ------------------------------------------------------------- the invariant

  ghost predicate PhaseHolds(s: State, c: int, held: Held, phase: Phase) {
    match phase
    case Idle => true
    case Resolved(since) => Behind(s, c, held, since) && since <= Position(s, c)
    case Positioned(since, current) => Behind(s, c, held, since) && since <= current <= Position(s, c)
    case Fetching(since, current, rows, k, g) =>
      since <= current <= Position(s, c) && k <= |rows| && Distinct(rows) && Covers(g, rows[..k]) &&
      forall uri :: Newer(s, c, uri, current) || FetchHolds(s, c, held, rows, k, g, uri)
  }

  // What is known of a name that has not been logged since the request began.
  predicate FetchHolds(s: State, c: int, held: Held, rows: seq<Row>, k: nat, g: Changes, uri: string)
    requires k <= |rows|
  {
    if Among(rows[..k], uri) then SaysNow(s, c, g, uri)
    else Among(rows, uri) || Same(s, c, held, uri)
  }

  ghost predicate Consistent(w: World, hash: Hash, c: int) {
    Valid(w.server, hash) && Issued(w.client.token) && TokenPosition(w.client.token) <= Position(w.server, c) &&
    Behind(w.server, c, w.client.held, TokenPosition(w.client.token)) &&
    PhaseHolds(w.server, c, w.client.held, w.phase)
  }

  // The two states agree on the object of a name.
  predicate SameObject(s: State, t: State, c: int, uri: string) {
    (Key(c, uri) in s.objects <==> Key(c, uri) in t.objects) &&
    (Key(c, uri) in s.objects && Key(c, uri) in t.objects ==> s.objects[Key(c, uri)] == t.objects[Key(c, uri)])
  }

  // A write either leaves a name's object alone or logs it as newest.
  lemma WriteIsLogged(s: State, hash: Hash, write: Write, c: int, uri: string, p: int)
    requires Valid(s, hash) && p <= Position(s, c)
    ensures var t := Execute(s, hash, write);
            Position(s, c) <= Position(t, c) &&
            (Newer(s, c, uri, p) ==> Newer(t, c, uri, p)) && (Newer(t, c, uri, p) || SameObject(s, t, c, uri))
  {
    var t := Execute(s, hash, write);
    WriteShape(s, hash, write);
    if t.changes != s.changes {
      var last := Row(write.c, Position(s, write.c) + 1, write.uri, t.changes[|t.changes| - 1].change);
      StillNewer(s, t, write.c, write.uri, last, c, uri, p);
    }
  }

  // A write that changes anything adds one row and touches one object.
  lemma WriteShape(s: State, hash: Hash, write: Write)
    ensures var t := Execute(s, hash, write);
            (forall c :: Position(s, c) <= Position(t, c)) &&
            ((t.changes == s.changes && t.objects == s.objects) ||
             (!write.Create? && t.changes != [] &&
              t.changes == Pruned(s.changes, write.c, write.uri) +
                           [Row(write.c, Position(s, write.c) + 1, write.uri, t.changes[|t.changes| - 1].change)] &&
              forall c, uri | Key(c, uri) != Key(write.c, write.uri) :: SameObject(s, t, c, uri)))
  {
  }

  lemma StillNewer(s: State, t: State, c: int, uri: string, last: Row, d: int, name: string, p: int)
    requires Names(last, c, uri) && last.position > Position(s, c) && p <= Position(s, d)
    requires t.changes == Pruned(s.changes, c, uri) + [last]
    ensures Newer(s, d, name, p) ==> Newer(t, d, name, p)
    ensures c == d && uri == name ==> Newer(t, d, name, p)
  {
    PrunedRows(s.changes, c, uri);
    assert forall r :: r in t.changes <==> r in Pruned(s.changes, c, uri) || r == last;
    assert last in t.changes;
    if Newer(s, d, name, p) && !(c == d && uri == name) {
      var r :| r in s.changes && Names(r, d, name) && r.position > p;
      assert r in t.changes;
    }
  }

  lemma WriteKeeps(w: World, hash: Hash, c: int, write: Write)
    requires Consistent(w, hash, c)
    ensures Consistent(w.(server := Execute(w.server, hash, write)), hash, c)
  {
    var s, t := w.server, Execute(w.server, hash, write);
    ExecuteKeepsValid(s, hash, write);
    BehindStays(s, hash, write, c, w.client.held, TokenPosition(w.client.token));
    match w.phase
    case Idle =>
    case Resolved(since) => BehindStays(s, hash, write, c, w.client.held, since);
    case Positioned(since, _) => BehindStays(s, hash, write, c, w.client.held, since);
    case Fetching(since, current, rows, k, g) => FetchStays(s, hash, write, c, w.client.held, w.phase);
  }

  lemma BehindStays(s: State, hash: Hash, write: Write, c: int, held: Held, p: int)
    requires Valid(s, hash) && p <= Position(s, c) && Behind(s, c, held, p)
    ensures Behind(Execute(s, hash, write), c, held, p) && p <= Position(Execute(s, hash, write), c)
  {
    var t := Execute(s, hash, write);
    WriteIsLogged(s, hash, write, c, "", p);
    forall uri ensures Newer(t, c, uri, p) || Same(t, c, held, uri) {
      WriteIsLogged(s, hash, write, c, uri, p);
      assert Newer(s, c, uri, p) || Same(s, c, held, uri);
    }
  }

  lemma FetchStays(s: State, hash: Hash, write: Write, c: int, held: Held, phase: Phase)
    requires Valid(s, hash) && phase.Fetching? && PhaseHolds(s, c, held, phase)
    ensures PhaseHolds(Execute(s, hash, write), c, held, phase)
  {
    var t, current := Execute(s, hash, write), phase.current;
    WriteIsLogged(s, hash, write, c, "", current);
    forall uri
      ensures Newer(t, c, uri, current) || FetchHolds(t, c, held, phase.rows, phase.k, phase.changes, uri)
    {
      WriteIsLogged(s, hash, write, c, uri, current);
      assert Newer(s, c, uri, current) || FetchHolds(s, c, held, phase.rows, phase.k, phase.changes, uri);
      if SameObject(s, t, c, uri) {
        HoldsAlike(s, t, c, held, phase.rows, phase.k, phase.changes, uri);
      }
    }
  }

  lemma HoldsAlike(s: State, t: State, c: int, held: Held, rows: seq<Row>, k: nat, g: Changes, uri: string)
    requires k <= |rows| && SameObject(s, t, c, uri)
    ensures FetchHolds(s, c, held, rows, k, g, uri) <==> FetchHolds(t, c, held, rows, k, g, uri)
  {
  }

  lemma ReadLogKeeps(s: State, hash: Hash, c: int, held: Held, since: int, current: nat)
    requires Valid(s, hash) && Behind(s, c, held, since) && since <= current <= Position(s, c)
    ensures PhaseHolds(s, c, held, Fetching(since, current, RowsSince(s.changes, c, since), 0, Changes([], [])))
  {
    var rows := RowsSince(s.changes, c, since);
    RowsOrdered(s.changes, c, since);
    assert rows[..0] == [];
    forall uri ensures Newer(s, c, uri, current) || FetchHolds(s, c, held, rows, 0, Changes([], []), uri) {
      assert Newer(s, c, uri, since) || Same(s, c, held, uri);
      if Newer(s, c, uri, since) {
        var r :| r in s.changes && Names(r, c, uri) && r.position > since;
        assert r in rows && r.uri == uri;
      }
    }
  }

  lemma ReadObjectKeeps(s: State, c: int, held: Held, phase: Phase)
    requires phase.Fetching? && phase.k < |phase.rows| && PhaseHolds(s, c, held, phase)
    ensures PhaseHolds(s, c, held, phase.(k := phase.k + 1, changes := Gathered(s, c, phase.rows[phase.k].uri, phase.changes)))
  {
    var rows, k, g := phase.rows, phase.k, phase.changes;
    var next := Gathered(s, c, rows[k].uri, g);
    assert rows[..k + 1] == rows[..k] + [rows[k]];
    GatherOne(s, c, g, rows[..k], rows[k]);
    forall uri
      ensures Newer(s, c, uri, phase.current) || FetchHolds(s, c, held, rows, k + 1, next, uri)
    {
      AmongNext(rows[..k], rows[k], uri);
      assert Newer(s, c, uri, phase.current) || FetchHolds(s, c, held, rows, k, g, uri);
    }
  }

  lemma TakeAnswerKeeps(s: State, c: int, held: Held, phase: Phase)
    requires phase.Fetching? && phase.k == |phase.rows| && PhaseHolds(s, c, held, phase)
    ensures Behind(s, c, TakenIn(held, phase.changes), phase.current)
  {
    var rows, g := phase.rows, phase.changes;
    assert rows[..|rows|] == rows;
    forall uri ensures Newer(s, c, uri, phase.current) || Same(s, c, TakenIn(held, g), uri) {
      assert Newer(s, c, uri, phase.current) || FetchHolds(s, c, held, rows, |rows|, g, uri);
      TakenInIsSame(s, c, held, g, uri);
    }
  }

  // A client that starts over is behind from the start.
  lemma EmptyIsBehind(s: State, hash: Hash, c: int)
    requires Valid(s, hash)
    ensures Behind(s, c, map[], 0)
  {
    forall uri ensures Newer(s, c, uri, 0) || Same(s, c, map[], uri) {
      if Key(c, uri) in s.objects {
        assert Logged(s, c, uri);
        var r :| r in s.changes && Names(r, c, uri);
        assert Truthful(s, r);
      }
    }
  }

  lemma StepKeeps(w: World, hash: Hash, c: int, a: Action, limit: int)
    requires Consistent(w, hash, c) && limit <= 0
    ensures var r := Step(w, hash, c, a, limit); r.Some? ==> Consistent(r.value, hash, c)
  {
    var s, held := w.server, w.client.held;
    if Step(w, hash, c, a, limit).Some? {
      match a
      case Writes(write) => WriteKeeps(w, hash, c, write);
      case ReadCollection => ReadCollectionKeeps(w, hash, c);
      case ReadSequence =>
      case ReadLog => ReadLogKeeps(s, hash, c, held, w.phase.since, w.phase.current);
      case ReadObject => ReadObjectKeeps(s, c, held, w.phase);
      case TakeAnswer =>
        TakeAnswerKeeps(s, c, held, w.phase);
        PositionOfToken(w.phase.current);
      case Fail =>
    }
  }

  lemma ReadCollectionKeeps(w: World, hash: Hash, c: int)
    requires Consistent(w, hash, c) && w.phase.Idle? && c in w.server.collections
    ensures Consistent(Step(w, hash, c, ReadCollection, 0).value, hash, c)
  {
    EmptyIsBehind(w.server, hash, c);
    PositionOfToken(0);
    var current := w.server.collections[c].position;
    DecodesTo(w.client.token, current);
  }

  // Whatever is read out of a token of ours is the position it names.
  lemma DecodesTo(token: string, current: int)
    requires Issued(token)
    ensures Decode(token, current).Some? ==> Decode(token, current).value == TokenPosition(token)
  {
    PositionOfToken(0);
    if token != "" {
      var d := Decimal(TokenPosition(token));
      DecimalRoundTrip(TokenPosition(token));
      assert d[0] in d && IsDigit(d[0]);
      PrefixCut(PREFIX, d);
    }
  }

  // Convergence: however writes, requests and failures interleave, every name
  // about which client and collection differ has a change logged behind the
  // client's token.
  lemma {:induction false} Converges(hash: Hash, c: int, actions: seq<Action>, limit: int)
    requires limit <= 0
    ensures Consistent(Reached(hash, c, actions, limit), hash, c)
    decreases |actions|
  {
    if actions == [] {
      EmptyIsBehind(State(map[], map[], []), hash, c);
      PositionOfToken(0);
    } else {
      Converges(hash, c, actions[..|actions| - 1], limit);
      StepKeeps(Reached(hash, c, actions[..|actions| - 1], limit), hash, c, actions[|actions| - 1], limit);
    }
  }

  // So a client whose token is the collection's current one holds exactly
  // what the collection holds.
  lemma CurrentIsEqual(w: World, hash: Hash, c: int)
    requires Consistent(w, hash, c) && TokenPosition(w.client.token) == Position(w.server, c)
    ensures forall uri :: Same(w.server, c, w.client.held, uri)
  {
    forall uri ensures Same(w.server, c, w.client.held, uri) {
      assert Newer(w.server, c, uri, Position(w.server, c)) || Same(w.server, c, w.client.held, uri);
      NothingNewer(w.server, hash, c, uri);
    }
  }

  lemma NothingNewer(s: State, hash: Hash, c: int, uri: string)
    requires Valid(s, hash)
    ensures !Newer(s, c, uri, Position(s, c))
  {
    assert forall r | r in s.changes :: Truthful(s, r);
  }

  // ------------------------------------------------------------ undisturbed syncs

  // A client is never told to start over: the collection understands every
  // token it has given out.
  lemma TokenIsAccepted(w: World, hash: Hash, c: int)
    requires Consistent(w, hash, c) && c in w.server.collections && Position(w.server, c) <= MAX_INT64
    ensures Decode(w.client.token, Position(w.server, c)) == Some(TokenPosition(w.client.token))
  {
    PositionOfToken(0);
    if w.client.token != "" {
      DecodeEncode(TokenPosition(w.client.token), Position(w.server, c));
    }
  }

  // The remaining reads of a request, with nothing written in between.
  function ReadAll(w: World, hash: Hash, c: int, limit: int): World
    requires w.phase.Fetching? && w.phase.k <= |w.phase.rows|
    decreases |w.phase.rows| - w.phase.k
  {
    match Step(w, hash, c, ReadObject, limit)
    case Some(next) => ReadAll(next, hash, c, limit)
    case None => w
  }

  // Undisturbed, the separate reads gather what one look at the collection
  // gathers.
  lemma {:induction false} ReadAllGathers(w: World, hash: Hash, c: int, limit: int)
    requires w.phase.Fetching? && w.phase.k <= |w.phase.rows|
    requires w.phase.changes == Gather(w.server, c, w.phase.rows[..w.phase.k], limit)
    ensures var v := ReadAll(w, hash, c, limit);
            v.server == w.server && v.client == w.client && v.phase.Fetching? && v.phase.current == w.phase.current &&
            (v.phase.k == |v.phase.rows| || Full(v.phase.changes, limit)) &&
            v.phase.changes == Gather(w.server, c, w.phase.rows, limit)
    decreases |w.phase.rows| - w.phase.k
  {
    var rows, k := w.phase.rows, w.phase.k;
    if k < |rows| && !Full(w.phase.changes, limit) {
      assert rows[..k + 1][..k] == rows[..k];
      ReadAllGathers(Step(w, hash, c, ReadObject, limit).value, hash, c, limit);
    } else if k < |rows| {
      StaysFull(w.server, c, rows, limit, k);
    } else {
      assert rows[..k] == rows;
    }
  }

  // A request nobody writes into: its five steps taken one after another.
  function QuietSync(w: World, hash: Hash, c: int, limit: int): World
    requires w.phase.Idle? && c in w.server.collections
    requires Decode(w.client.token, w.server.collections[c].position).Some?
  {
    var resolved := Step(w, hash, c, ReadCollection, limit).value;
    var positioned := Step(resolved, hash, c, ReadSequence, limit).value;
    var fetching := Step(positioned, hash, c, ReadLog, limit).value;
    ReadAllGathers(fetching, hash, c, limit);
    Step(ReadAll(fetching, hash, c, limit), hash, c, TakeAnswer, limit).value
  }

  lemma TakenInIsAll(s: State, hash: Hash, c: int, held: Held, since: nat, rows: seq<Row>, limit: int)
    requires Valid(s, hash) && c in s.collections && Behind(s, c, held, since) && rows == RowsSince(s.changes, c, since) && limit <= 0
    ensures forall uri :: Same(s, c, TakenIn(held, Gather(s, c, rows, limit)), uri)
  {
    GatherSuffices(s, hash, c, held, since, limit);
    forall uri ensures Same(s, c, TakenIn(held, Gather(s, c, rows, limit)), uri) {
      assert Newer(s, c, uri, Position(s, c)) || Same(s, c, TakenIn(held, Gather(s, c, rows, limit)), uri);
      NothingNewer(s, hash, c, uri);
    }
  }

  // It gives the client what a single look would, and without a limit leaves
  // client and collection equal.
  lemma QuietSyncEqualises(w: World, hash: Hash, c: int, limit: int)
    requires Consistent(w, hash, c) && w.phase.Idle? && c in w.server.collections && Position(w.server, c) <= MAX_INT64
    ensures var since := Decode(w.client.token, Position(w.server, c));
            since.Some? &&
            var v := QuietSync(w, hash, c, limit);
            var g := Gather(w.server, c, RowsSince(w.server.changes, c, since.value), limit);
            v == World(w.server, Client(Encode(Position(w.server, c)), TakenIn(w.client.held, g)), Idle) &&
            (limit <= 0 ==> forall uri :: Same(v.server, c, v.client.held, uri))
  {
    TokenIsAccepted(w, hash, c);
    var since := TokenPosition(w.client.token);
    var current := Position(w.server, c);
    var rows := RowsSince(w.server.changes, c, since);
    var fetching := World(w.server, w.client, Fetching(since, current, rows, 0, Changes([], [])));
    assert rows[..0] == [];
    ReadAllGathers(fetching, hash, c, limit);
    if limit <= 0 {
      TakenInIsAll(w.server, hash, c, w.client.held, since, rows, limit);
    }
  }

  // ----------------------------------------------------------- what a limit does

  // The answer covers the rows it has room for.
  function Taken(rows: seq<Row>, limit: int): seq<Row> {
    if limit > 0 && |rows| > limit then rows[..limit] else rows
  }

  lemma {:induction false} GatherCovers(s: State, c: int, rows: seq<Row>, limit: int)
    requires Distinct(rows)
    ensures var g := Gather(s, c, rows, limit);
            Covers(g, Taken(rows, limit)) && |g.updated| + |g.deleted| == |Taken(rows, limit)| &&
            forall uri | Among(Taken(rows, limit), uri) :: SaysNow(s, c, g, uri)
    decreases |rows|
  {
    if rows != [] {
      var front, last := rows[..|rows| - 1], rows[|rows| - 1];
      GatherCovers(s, c, front, limit);
      TakenNext(rows, limit);
      if !Full(Gather(s, c, front, limit), limit) {
        assert front + [last] == rows;
        GatherOne(s, c, Gather(s, c, front, limit), front, last);
        forall uri | Among(rows, uri) ensures SaysNow(s, c, Gather(s, c, rows, limit), uri) {
          AmongNext(front, last, uri);
        }
      }
    }
  }

  lemma TakenNext(rows: seq<Row>, limit: int)
    requires rows != []
    ensures var front := rows[..|rows| - 1];
            if limit > 0 && |Taken(front, limit)| >= limit then Taken(rows, limit) == Taken(front, limit)
            else Taken(front, limit) == front && Taken(rows, limit) == rows
  {
    var front := rows[..|rows| - 1];
    if limit > 0 && |front| >= limit {
      assert front[..limit] == rows[..limit];
    }
  }

  lemma GatherSuffices(s: State, hash: Hash, c: int, held: Held, since: int, limit: int)
    requires Valid(s, hash) && c in s.collections && Behind(s, c, held, since)
    requires var rows := RowsSince(s.changes, c, since); Taken(rows, limit) == rows
    ensures Behind(s, c, TakenIn(held, Gather(s, c, RowsSince(s.changes, c, since), limit)), Position(s, c))
  {
    var rows := RowsSince(s.changes, c, since);
    var g := Gather(s, c, rows, limit);
    RowsOrdered(s.changes, c, since);
    GatherCovers(s, c, rows, limit);
    forall uri ensures Same(s, c, TakenIn(held, g), uri) {
      assert Newer(s, c, uri, since) || Same(s, c, held, uri);
      if Newer(s, c, uri, since) {
        var r :| r in s.changes && Names(r, c, uri) && r.position > since;
        assert r in rows && r.uri == uri;
      }
      TakenInIsSame(s, c, held, g, uri);
    }
  }

  // What a collection holds, as a client would.
  function Contents(s: State, c: int): Held {
    map k | k in s.objects && k.collection == c :: k.uri := s.objects[k].payload.raw
  }

  lemma ContentsAreSame(s: State, c: int, uri: string)
    ensures Same(s, c, Contents(s, c), uri)
  {
    if Key(c, uri) in s.objects {
      assert Key(c, uri) in s.objects && Key(c, uri).collection == c;
    }
  }

  // A copy that is wrong about one name.
  function WrongAbout(held: Held, uri: string): Held {
    if uri in held then held - {uri} else held[uri := ""]
  }

  // A limited answer carries the collection's newest token all the same, so a
  // client can rely on it if and only if everything fitted: otherwise some
  // client that was merely behind is now wrong for good.
  lemma LimitExact(s: State, hash: Hash, c: int, since: int, limit: int)
    requires Valid(s, hash) && c in s.collections
    ensures var rows := RowsSince(s.changes, c, since);
            var g := Gather(s, c, rows, limit);
            (forall held | Behind(s, c, held, since) :: Behind(s, c, TakenIn(held, g), Position(s, c))) <==>
            limit <= 0 || |rows| <= limit
  {
    var rows := RowsSince(s.changes, c, since);
    var g := Gather(s, c, rows, limit);
    if limit <= 0 || |rows| <= limit {
      forall held | Behind(s, c, held, since) ensures Behind(s, c, TakenIn(held, g), Position(s, c)) {
        GatherSuffices(s, hash, c, held, since, limit);
      }
    } else {
      var uri := rows[limit].uri;
      var held := WrongAbout(Contents(s, c), uri);
      LeftOutIsLost(s, hash, c, since, limit, held);
      assert !Behind(s, c, TakenIn(held, g), Position(s, c));
    }
  }

  lemma LeftOutIsLost(s: State, hash: Hash, c: int, since: int, limit: int, held: Held)
    requires Valid(s, hash) && c in s.collections && 0 < limit < |RowsSince(s.changes, c, since)|
    requires held == WrongAbout(Contents(s, c), RowsSince(s.changes, c, since)[limit].uri)
    ensures Behind(s, c, held, since)
    ensures !Behind(s, c, TakenIn(held, Gather(s, c, RowsSince(s.changes, c, since), limit)), Position(s, c))
  {
    var rows := RowsSince(s.changes, c, since);
    var g := Gather(s, c, rows, limit);
    var row := rows[limit];
    RowsOrdered(s.changes, c, since);
    assert row in rows;
    forall uri ensures Newer(s, c, uri, since) || Same(s, c, held, uri) {
      ContentsAreSame(s, c, uri);
      if uri == row.uri {
        assert row in s.changes && Names(row, c, uri);
      }
    }
    GatherCovers(s, c, rows, limit);
    assert !Among(rows[..limit], row.uri);
    ContentsAreSame(s, c, row.uri);
    TakenInIsSame(s, c, held, g, row.uri);
    NothingNewer(s, hash, c, row.uri);
    assert !(Newer(s, c, row.uri, Position(s, c)) || Same(s, c, TakenIn(held, g), row.uri));
  }
}
