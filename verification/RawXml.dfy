// XML kept as a tree and replayed as tokens. internal/dav/internal/xml.go
module RawXml {
  import opened Text

  datatype Name = Name(space: string, local: string)
  datatype Attr = Attr(name: Name, value: string)

  datatype Kind = CharData | Comment | ProcInst | Directive

  datatype Token = Start(name: Name, attr: seq<Attr>) | End(name: Name) | Other(kind: Kind, text: string)

  // A raw value: an element with its children, or a token of its own.
  datatype Value = Element(name: Name, attr: seq<Attr>, children: seq<Value>) | Leaf(kind: Kind, text: string)

  // The tokens of a tree, depth first.
  function Flatten(v: Value): (ts: seq<Token>)
    ensures ts != []
  {
    match v
    case Element(name, attr, children) => [Start(name, attr)] + (FlattenAll(children) + [End(name)])
    case Leaf(kind, text) => [Other(kind, text)]
  }

  function FlattenAll(children: seq<Value>): seq<Token> {
    if children == [] then [] else Flatten(children[0]) + FlattenAll(children[1..])
  }

  // ------------------------------------------------------------------ replaying

  // A stream of the tokens of one value. Streams of children are nested in it,
  // one at a time.
  class Reader {
    const val: Value
    var started: bool
    var ended: bool
    var child: nat
    var childReader: Reader?
    ghost var Repr: set<object>

    ghost predicate Valid()
      reads this, Repr
      decreases val
    {
      this in Repr && child <= (if val.Element? then |val.children| else 0) &&
      (!started ==> child == 0 && childReader == null) &&
      (childReader != null ==>
         val.Element? && child < |val.children| && childReader in Repr && childReader.Repr <= Repr &&
         this !in childReader.Repr && childReader.val == val.children[child] && childReader.Valid())
    }

    // The tokens still to come.
    ghost function Remaining(): seq<Token>
      requires Valid()
      reads this, Repr
      decreases val
    {
      if ended then []
      else if val.Leaf? || !started then Flatten(val)
      else if childReader == null then FlattenAll(val.children[child..]) + [End(val.name)]
      else childReader.Remaining() + (FlattenAll(val.children[child + 1..]) + [End(val.name)])
    }

    constructor (val: Value)
      ensures Valid() && fresh(Repr) && this.val == val && Remaining() == Flatten(val)
    {
      this.val := val;
      started, ended, child, childReader := false, false, 0, null;
      Repr := {this};
    }

    // The next token, or none at the end and forever after.
    method Token() returns (tok: Option<Token>)
      requires Valid()
      modifies Repr
      ensures Valid() && fresh(Repr - old(Repr))
      ensures old(Remaining()) == [] ==> tok == None && Remaining() == []
      ensures old(Remaining()) != [] ==> tok == Some(old(Remaining())[0]) && Remaining() == old(Remaining())[1..]
      decreases val, 2
    {
      if ended {
        return None;
      }
      if val.Leaf? {
        ended := true;
        return Some(Other(val.kind, val.text));
      }
      if !started {
        started := true;
        assert val.children[0..] == val.children;
        FlattenRest(val);
        return Some(Start(val.name, val.attr));
      }
      tok := TokenOfChildren();
    }

    // The next token of the children, or the element's end.
    method TokenOfChildren() returns (tok: Option<Token>)
      requires Valid() && started && !ended && val.Element?
      modifies Repr
      ensures Valid() && fresh(Repr - old(Repr))
      ensures old(Remaining()) != [] && tok == Some(old(Remaining())[0]) && Remaining() == old(Remaining())[1..]
      decreases val, 1
    {
      ghost var before := Remaining();
      while child < |val.children|
        invariant Valid() && started && !ended && fresh(Repr - old(Repr)) && Remaining() == before
        decreases |val.children| - child
      {
        if childReader == null {
          OpenChild();
        }
        tok := NextOfChild();
        if tok.Some? {
          return;
        }
      }
      tok := Close();
    }

    method Close() returns (tok: Option<Token>)
      requires Valid() && started && !ended && val.Element? && child == |val.children|
      modifies this
      ensures Valid() && Repr == old(Repr) && tok == Some(End(val.name))
      ensures old(Remaining()) == [End(val.name)] && Remaining() == []
    {
      assert val.children[child..] == [];
      ended := true;
      return Some(End(val.name));
    }

    method OpenChild()
      requires Valid() && started && !ended && val.Element? && child < |val.children| && childReader == null
      modifies this
      ensures Valid() && fresh(Repr - old(Repr)) && childReader != null
      ensures started && !ended && child == old(child)
      ensures Remaining() == old(Remaining())
    {
      var r := new Reader(val.children[child]);
      childReader := r;
      Repr := Repr + r.Repr;
      FlattenNext(val, child);
    }

    // A token of the child being read, or none, and on to the next child.
    method NextOfChild() returns (tok: Option<Token>)
      requires Valid() && started && !ended && childReader != null
      modifies Repr
      ensures Valid() && fresh(Repr - old(Repr))
      ensures started && !ended && old(Remaining()) != []
      ensures tok.Some? ==> tok == Some(old(Remaining())[0]) && Remaining() == old(Remaining())[1..]
      ensures tok.None? ==> child == old(child) + 1 && Remaining() == old(Remaining())
      decreases val, 0
    {
      ghost var rest := FlattenAll(val.children[child + 1..]) + [End(val.name)];
      ghost var now := childReader.Remaining();
      tok := childReader.Token();
      Repr := Repr + childReader.Repr;
      if tok.None? {
        childReader := null;
        child := child + 1;
        assert [] + rest == rest;
      } else {
        DropFirst(now, rest);
      }
    }
  }

  lemma FlattenRest(v: Value)
    requires v.Element?
    ensures Flatten(v)[0] == Start(v.name, v.attr) && Flatten(v)[1..] == FlattenAll(v.children) + [End(v.name)]
  {
  }

  lemma FlattenNext(v: Value, i: nat)
    requires v.Element? && i < |v.children|
    ensures FlattenAll(v.children[i..]) + [End(v.name)] ==
            Flatten(v.children[i]) + (FlattenAll(v.children[i + 1..]) + [End(v.name)])
  {
    assert v.children[i..][0] == v.children[i] && v.children[i..][1..] == v.children[i + 1..];
  }

  lemma DropFirst(a: seq<Token>, b: seq<Token>)
    requires a != []
    ensures (a + b)[0] == a[0] && (a + b)[1..] == a[1..] + b
  {
  }

  // -------------------------------------------------------------------- writing

  // An encoder, by the tokens it has been given.
  class Encoder {
    var tokens: seq<Token>

    method EncodeToken(t: Token)
      modifies this
      ensures tokens == old(tokens) + [t]
    {
      tokens := tokens + [t];
    }
  }

  // Writes a value: its tokens in the order a reader replays them.
  method MarshalXML(v: Value, e: Encoder)
    modifies e
    ensures e.tokens == old(e.tokens) + Flatten(v)
    decreases v
  {
    match v
    case Element(name, attr, children) =>
      e.EncodeToken(Start(name, attr));
      var i := 0;
      assert children[..0] == [];
      while i < |children|
        invariant 0 <= i <= |children|
        invariant e.tokens == old(e.tokens) + ([Start(name, attr)] + FlattenAll(children[..i]))
      {
        MarshalXML(children[i], e);
        FlattenOneMore(children, i);
        i := i + 1;
      }
      assert children[..|children|] == children;
      e.EncodeToken(End(name));
    case Leaf(kind, text) =>
      e.EncodeToken(Other(kind, text));
  }

  lemma FlattenOneMore(children: seq<Value>, i: nat)
    requires i < |children|
    ensures FlattenAll(children[..i + 1]) == FlattenAll(children[..i]) + Flatten(children[i])
  {
    FlattenConcat(children[..i], [children[i]]);
    assert children[..i + 1] == children[..i] + [children[i]];
    assert [children[i]][1..] == [];
  }

  lemma {:induction false} FlattenConcat(a: seq<Value>, b: seq<Value>)
    ensures FlattenAll(a + b) == FlattenAll(a) + FlattenAll(b)
  {
    if a == [] {
      assert a + b == b;
    } else {
      assert (a + b)[1..] == a[1..] + b;
      FlattenConcat(a[1..], b);
    }
  }

  // -------------------------------------------------------------------- reading

  // A decoder over a stream of tokens. It refuses an end that does not match
  // the element that is open.
  class Decoder {
    var tokens: seq<Token>
    var open: seq<Name>

    constructor (tokens: seq<Token>)
      ensures this.tokens == tokens && open == []
    {
      this.tokens, open := tokens, [];
    }

    method Token() returns (t: Option<Token>)
      modifies this
      ensures t == Next(old(tokens), old(open))
      ensures t.Some? ==> tokens == old(tokens)[1..] && open == Opened(old(open), t.value)
      ensures t.None? ==> tokens == old(tokens) && open == old(open)
    {
      if tokens == [] {
        return None;
      }
      match tokens[0] {
        case Start(name, _) =>
          open := open + [name];
        case End(name) =>
          if open == [] || open[|open| - 1] != name {
            return None;
          }
          open := open[..|open| - 1];
        case Other(_, _) =>
      }
      t := Some(tokens[0]);
      tokens := tokens[1..];
    }
  }

  function Next(tokens: seq<Token>, open: seq<Name>): Option<Token> {
    if tokens == [] then None
    else if tokens[0].End? && (open == [] || open[|open| - 1] != tokens[0].name) then None
    else Some(tokens[0])
  }

  function Opened(open: seq<Name>, t: Token): seq<Name> {
    match t
    case Start(name, _) => open + [name]
    case End(_) => if open == [] then [] else open[..|open| - 1]
    case Other(_, _) => open
  }

  datatype Read = Read(children: seq<Value>, rest: seq<Token>)

  // The children of an open element and what follows its end.
  function ReadChildren(ts: seq<Token>, name: Name): (r: Option<Read>)
    ensures r.Some? ==> |r.value.rest| < |ts|
    decreases |ts|
  {
    if ts == [] then None
    else
      match ts[0]
      case End(n) => if n == name then Some(Read([], ts[1..])) else None
      case Other(kind, text) => WithFirst(Leaf(kind, text), ReadChildren(ts[1..], name))
      case Start(n, attr) =>
        match ReadChildren(ts[1..], n)
        case None => None
        case Some(inner) => WithFirst(Element(n, attr, inner.children), ReadChildren(inner.rest, name))
  }

  function WithFirst(v: Value, r: Option<Read>): Option<Read> {
    match r
    case None => None
    case Some(more) => Some(Read([v] + more.children, more.rest))
  }

  function WithFront(front: seq<Value>, r: Option<Read>): Option<Read> {
    match r
    case None => None
    case Some(more) => Some(Read(front + more.children, more.rest))
  }

  lemma OneMoreInFront(front: seq<Value>, v: Value, r: Option<Read>)
    ensures WithFront(front, WithFirst(v, r)) == WithFront(front + [v], r)
  {
    if r.Some? {
      assert front + ([v] + r.value.children) == (front + [v]) + r.value.children;
    }
  }

  // Reads the element whose start has just been read.
  method UnmarshalXML(d: Decoder, name: Name, attr: seq<Attr>) returns (v: Option<Value>)
    requires d.open != [] && d.open[|d.open| - 1] == name
    modifies d
    ensures match ReadChildren(old(d.tokens), name)
            case None => v == None
            case Some(r) => v == Some(Element(name, attr, r.children)) && d.tokens == r.rest &&
                            d.open == old(d.open)[..|old(d.open)| - 1]
    ensures |d.tokens| <= |old(d.tokens)|
    decreases |d.tokens|
  {
    var children: seq<Value> := [];
    EmptyFront(ReadChildren(d.tokens, name));
    while true
      invariant d.open == old(d.open) && |d.tokens| <= |old(d.tokens)|
      invariant WithFront(children, ReadChildren(d.tokens, name)) == ReadChildren(old(d.tokens), name)
      decreases |d.tokens|
    {
      ghost var before := d.tokens;
      var t := d.Token();
      if t.None? {
        return None;
      }
      match t.value {
        case Start(n, a) =>
          assert d.open[..|d.open| - 1] == old(d.open);
          var child := UnmarshalXML(d, n, a);
          if child.None? {
            return None;
          }
          OneMoreInFront(children, child.value, ReadChildren(d.tokens, name));
          children := children + [child.value];
        case End(_) =>
          assert children + [] == children;
          return Some(Element(name, attr, children));
        case Other(kind, text) =>
          OneMoreInFront(children, Leaf(kind, text), ReadChildren(d.tokens, name));
          children := children + [Leaf(kind, text)];
      }
    }
  }

  lemma EmptyFront(r: Option<Read>)
    ensures WithFront([], r) == r
  {
    if r.Some? {
      assert [] + r.value.children == r.value.children;
    }
  }

  // Reading undoes writing and nothing else does: a stream reads as these
  // children, leaving this rest, if and only if it is their flattening, the
  // end, and the rest.
  lemma ReadsExactly(ts: seq<Token>, name: Name, children: seq<Value>, rest: seq<Token>)
    ensures ReadChildren(ts, name) == Some(Read(children, rest)) <==> ts == FlattenAll(children) + ([End(name)] + rest)
  {
    FlatReads(children, name, rest);
    if ReadChildren(ts, name).Some? {
      ReadIsFlat(ts, name);
    }
  }

  lemma {:induction false} FlatReads(children: seq<Value>, name: Name, rest: seq<Token>)
    ensures ReadChildren(FlattenAll(children) + ([End(name)] + rest), name) == Some(Read(children, rest))
    decreases children
  {
    if children == [] {
      assert FlattenAll(children) + ([End(name)] + rest) == [End(name)] + rest && ([End(name)] + rest)[1..] == rest;
    } else {
      var after := FlattenAll(children[1..]) + ([End(name)] + rest);
      FlatReads(children[1..], name, rest);
      FlattenFirst(children, [End(name)] + rest);
      match children[0]
      case Leaf(kind, text) =>
        FirstRead(children, name, rest, after);
      case Element(n, attr, inner) =>
        FlatReads(inner, n, after);
        FirstRead(children, name, rest, after);
    }
  }

  lemma FirstRead(children: seq<Value>, name: Name, rest: seq<Token>, after: seq<Token>)
    requires children != [] && ReadChildren(after, name) == Some(Read(children[1..], rest))
    requires var c := children[0];
             c.Element? ==> ReadChildren(FlattenAll(c.children) + ([End(c.name)] + after), c.name) == Some(Read(c.children, after))
    ensures ReadChildren(Flatten(children[0]) + after, name) == Some(Read(children, rest))
  {
    RestOfFlatten(children[0], after);
    assert [children[0]] + children[1..] == children;
  }

  lemma RestOfFlatten(v: Value, after: seq<Token>)
    ensures var ts := Flatten(v) + after;
            match v
            case Leaf(kind, text) => ts[0] == Other(kind, text) && ts[1..] == after
            case Element(n, attr, inner) => ts[0] == Start(n, attr) && ts[1..] == FlattenAll(inner) + ([End(n)] + after)
  {
  }

  lemma FlattenFirst(children: seq<Value>, tail: seq<Token>)
    requires children != []
    ensures FlattenAll(children) + tail == Flatten(children[0]) + (FlattenAll(children[1..]) + tail)
  {
  }

  lemma {:induction false} ReadIsFlat(ts: seq<Token>, name: Name)
    requires ReadChildren(ts, name).Some?
    ensures var r := ReadChildren(ts, name).value; ts == FlattenAll(r.children) + ([End(name)] + r.rest)
    decreases |ts|
  {
    var r := ReadChildren(ts, name).value;
    match ts[0]
    case End(n) =>
      assert ts == [] + ([End(n)] + ts[1..]);
    case Other(kind, text) =>
      ReadIsFlat(ts[1..], name);
      FlatPrepend(Leaf(kind, text), ReadChildren(ts[1..], name).value, r, ts[1..], name);
      LeafFirst(ts, kind, text);
    case Start(n, attr) =>
      var inner := ReadChildren(ts[1..], n).value;
      var v := Element(n, attr, inner.children);
      ReadIsFlat(ts[1..], n);
      ReadIsFlat(inner.rest, name);
      FlatPrepend(v, ReadChildren(inner.rest, name).value, r, inner.rest, name);
      ElementFirst(ts, v, inner.rest);
  }

  lemma LeafFirst(ts: seq<Token>, kind: Kind, text: string)
    requires ts != [] && ts[0] == Other(kind, text)
    ensures ts == Flatten(Leaf(kind, text)) + ts[1..]
  {
  }

  lemma ElementFirst(ts: seq<Token>, v: Value, rest: seq<Token>)
    requires v.Element? && ts != [] && ts[0] == Start(v.name, v.attr)
    requires ts[1..] == FlattenAll(v.children) + ([End(v.name)] + rest)
    ensures ts == Flatten(v) + rest
  {
    assert ts == [ts[0]] + ts[1..];
  }

  lemma FlatPrepend(v: Value, more: Read, r: Read, ts: seq<Token>, name: Name)
    requires r == Read([v] + more.children, more.rest) && ts == FlattenAll(more.children) + ([End(name)] + more.rest)
    ensures Flatten(v) + ts == FlattenAll(r.children) + ([End(name)] + r.rest)
  {
    assert r.children[1..] == more.children;
  }

  // What a reader replays, a decoder makes the same tree of, and reads no
  // token beyond it.
  lemma ReplayReadsBack(v: Value, rest: seq<Token>)
    requires v.Element?
    ensures var ts := Flatten(v) + rest;
            ts[0] == Start(v.name, v.attr) && ReadChildren(ts[1..], v.name) == Some(Read(v.children, rest))
  {
    FlatReads(v.children, v.name, rest);
    assert (Flatten(v) + rest)[1..] == FlattenAll(v.children) + ([End(v.name)] + rest);
  }

  lemma TakeFirst(a: seq<Token>, b: seq<Token>)
    requires b != []
    ensures a + b == (a + [b[0]]) + b[1..]
  {
    assert b == [b[0]] + b[1..];
  }

  // All the tokens a reader has left, one call after another.
  method ReadAll(r: Reader) returns (ts: seq<Token>)
    requires r.Valid()
    modifies r.Repr
    ensures r.Valid() && ts == old(r.Remaining()) && r.Remaining() == []
  {
    ts := [];
    ghost var all := r.Remaining();
    assert [] + all == all;
    while true
      invariant r.Valid() && fresh(r.Repr - old(r.Repr))
      invariant ts + r.Remaining() == all
      decreases |r.Remaining()|
    {
      ghost var left := r.Remaining();
      var t := r.Token();
      if t.None? {
        return;
      }
      TakeFirst(ts, left);
      ts := ts + [t.value];
    }
  }
}
