/** The grammar of text proto: which token lists are messages. */
module TextProto {
  import opened Text
  import opened TextProtoLexer

  /** A message as written: fields, each a name token and then a value or a block between delimiters. */
  datatype Message = Empty | Field(name: Token, value: Tree, rest: Message)

  datatype Tree = Leaf(token: Token) | Node(start: Token, body: Message, end: Token)

  predicate ValueKind(k: Kind) {
    k == StringValue || k == OtherValue
  }

  predicate WellSpelled(m: Message) {
    m.Empty? || (m.name.kind == FieldName && WellSpelledTree(m.value) && WellSpelled(m.rest))
  }

  predicate WellSpelledTree(t: Tree) {
    match t
    case Leaf(token) => ValueKind(token.kind)
    case Node(start, body, end) => start.kind == StartBlock && end.kind == EndBlock && WellSpelled(body)
  }

  /** The tokens of a message. */
  function Spell(m: Message): seq<Token> {
    if m.Empty? then [] else [m.name] + (SpellTree(m.value) + Spell(m.rest))
  }

  function SpellTree(t: Tree): (ts: seq<Token>)
    ensures ts != []
  {
    match t
    case Leaf(token) => [token]
    case Node(start, body, end) => [start] + (Spell(body) + [end])
  }

  function Append(a: Message, b: Message): Message {
    if a.Empty? then b else Field(a.name, a.value, Append(a.rest, b))
  }

  lemma {:induction false} AppendMore(a: Message, b: Message, c: Message)
    ensures Append(Append(a, b), c) == Append(a, Append(b, c))
    ensures Append(a, Empty) == a
  {
    if a.Field? { AppendMore(a.rest, b, c); }
  }

  // ---- reading tokens

  /** What is read up to the end of a block, and what follows. */
  datatype Block = Block(body: Message, end: Option<Token>, rest: seq<Token>)

  function Read(ts: seq<Token>, top: bool): (r: Result<Block>)
    ensures r.Ok? ==> |r.value.rest| <= |ts| && (top <==> r.value.end.None?)
    decreases |ts|, 1
  {
    if ts == [] then
      if top then Ok(Block(Empty, None, [])) else Err("missing end-of-block")
    else if ts[0].kind == EndBlock then
      if top then Err("unexpected end-of-block") else Ok(Block(Empty, Some(ts[0]), ts[1..]))
    else if ts[0].kind != FieldName then Err("expected a field name")
    else
      var v := ReadValue(ts[1..]);
      if v.Err? then Err(v.message) else Before(Field(ts[0], v.value.0, Empty), Read(v.value.1, top))
  }

  function ReadValue(ts: seq<Token>): (r: Result<(Tree, seq<Token>)>)
    ensures r.Ok? ==> |r.value.1| < |ts|
    decreases |ts|, 0
  {
    if ts == [] then Err("expecting a value or start-of-block")
    else if ts[0].kind == StartBlock then
      var b := Read(ts[1..], false);
      if b.Err? then Err(b.message) else Ok((Node(ts[0], b.value.body, b.value.end.value), b.value.rest))
    else if ValueKind(ts[0].kind) then Ok((Leaf(ts[0]), ts[1..]))
    else Err("unexpected token")
  }

  function Before(m: Message, r: Result<Block>): Result<Block> {
    if r.Err? then r else Ok(r.value.(body := Append(m, r.value.body)))
  }

  lemma {:induction false} AppendOne(f: Token, v: Tree, m: Message)
    ensures Append(Field(f, v, Empty), m) == Field(f, v, m)
  {
  }

  lemma {:induction false} BeforeMore(f: Token, v: Tree, m: Message, r: Result<Block>)
    ensures Append(Field(f, v, Empty), m) == Field(f, v, m)
    ensures Before(Field(f, v, Empty), Before(m, r)) == Before(Field(f, v, m), r)
  {
    AppendOne(f, v, m);
    if r.Ok? { AppendOne(f, v, Append(m, r.value.body)); }
  }

  /** Reading a field takes its tokens and leaves the rest. */
  lemma {:induction false} ReadField(f: Token, ts: seq<Token>, top: bool)
    requires f.kind == FieldName && ReadValue(ts).Ok?
    ensures Read([f] + ts, top) == Before(Field(f, ReadValue(ts).value.0, Empty), Read(ReadValue(ts).value.1, top))
  {
  }

  lemma {:induction false} ReadNode(start: Token, ts: seq<Token>)
    requires start.kind == StartBlock && Read(ts, false).Ok?
    ensures var b := Read(ts, false).value;
            ReadValue([start] + ts) == Ok((Node(start, b.body, b.end.value), b.rest))
  {
  }

  /** Whatever follows, the tokens of a message are read as that message. */
  lemma {:induction false} SpelledIsRead(m: Message, tail: seq<Token>, top: bool)
    requires WellSpelled(m)
    ensures Read(Spell(m) + tail, top) == Before(m, Read(tail, top))
    decreases m
  {
    if m.Empty? {
      assert Spell(m) + tail == tail;
    } else {
      var more := Spell(m.rest) + tail;
      assert Spell(m) + tail == [m.name] + (SpellTree(m.value) + more);
      SpelledTreeIsRead(m.value, more);
      ReadField(m.name, SpellTree(m.value) + more, top);
      SpelledIsRead(m.rest, tail, top);
      BeforeMore(m.name, m.value, m.rest, Read(tail, top));
    }
  }

  lemma {:induction false} SpelledTreeIsRead(t: Tree, tail: seq<Token>)
    requires WellSpelledTree(t)
    ensures ReadValue(SpellTree(t) + tail) == Ok((t, tail))
    decreases t
  {
    if t.Node? {
      var after := [t.end] + tail;
      assert SpellTree(t) + tail == [t.start] + (Spell(t.body) + after);
      SpelledIsRead(t.body, after, false);
      assert after[1..] == tail;
      AppendMore(t.body, Empty, Empty);
      ReadNode(t.start, Spell(t.body) + after);
    } else {
      assert (SpellTree(t) + tail)[1..] == tail;
    }
  }

  function Ending(b: Block): seq<Token> {
    if b.end.Some? then [b.end.value] + b.rest else b.rest
  }

  lemma {:induction false} ReadIsSpelled(ts: seq<Token>, top: bool)
    requires Read(ts, top).Ok?
    ensures var b := Read(ts, top).value;
            WellSpelled(b.body) && ts == Spell(b.body) + Ending(b) &&
            (top ==> b.rest == []) && (!top ==> b.end.value.kind == EndBlock)
    decreases |ts|, 1
  {
    if ts != [] && ts[0].kind == FieldName {
      var v := ReadValue(ts[1..]).value;
      ReadValueIsSpelled(ts[1..]);
      ReadIsSpelled(v.1, top);
      BeforeMore(ts[0], v.0, Read(v.1, top).value.body, Read(v.1, top));
      FieldSpells(ts, v.0, Read(v.1, top).value.body, Ending(Read(v.1, top).value));
    }
  }

  lemma {:induction false} FieldSpells(ts: seq<Token>, v: Tree, m: Message, tail: seq<Token>)
    requires ts != [] && ts[1..] == SpellTree(v) + (Spell(m) + tail)
    ensures ts == Spell(Field(ts[0], v, m)) + tail
  {
  }

  lemma {:induction false} ReadValueIsSpelled(ts: seq<Token>)
    requires ReadValue(ts).Ok?
    ensures var v := ReadValue(ts).value; WellSpelledTree(v.0) && ts == SpellTree(v.0) + v.1
    decreases |ts|, 0
  {
    if ts[0].kind == StartBlock {
      ReadIsSpelled(ts[1..], false);
      var b := Read(ts[1..], false).value;
      NodeSpells(ts, b.body, b.end.value, b.rest);
    } else {
      assert ts == [ts[0]] + ts[1..];
    }
  }

  lemma {:induction false} NodeSpells(ts: seq<Token>, m: Message, end: Token, tail: seq<Token>)
    requires ts != [] && ts[1..] == Spell(m) + ([end] + tail)
    ensures ts == SpellTree(Node(ts[0], m, end)) + tail
  {
  }

  /** Tokens are read to the end exactly when they spell a message, and then as that message. */
  lemma {:induction false} ReadIffSpells(ts: seq<Token>, m: Message)
    ensures Read(ts, true) == Ok(Block(m, None, [])) <==> WellSpelled(m) && ts == Spell(m)
    ensures Read(ts, true).Ok? ==> Read(ts, true) == Ok(Block(Read(ts, true).value.body, None, []))
  {
    if Read(ts, true).Ok? { ReadIsSpelled(ts, true); }
    if WellSpelled(m) {
      SpelledIsRead(m, [], true);
      AppendMore(m, Empty, Empty);
      assert Spell(m) + [] == Spell(m);
    }
  }

  // ---- balance

  /** Every block that is opened is closed, and no other, starting d blocks deep. */
  predicate Balanced(ts: seq<Token>, d: nat) {
    if ts == [] then d == 0
    else if ts[0].kind == StartBlock then Balanced(ts[1..], d + 1)
    else if ts[0].kind == EndBlock then d > 0 && Balanced(ts[1..], d - 1)
    else Balanced(ts[1..], d)
  }

  lemma {:induction false} BalancedStep(t: Token, ts: seq<Token>, d: nat)
    ensures t.kind == StartBlock ==> Balanced([t] + ts, d) == Balanced(ts, d + 1)
    ensures t.kind == EndBlock ==> Balanced([t] + ts, d + 1) == Balanced(ts, d)
    ensures t.kind != StartBlock && t.kind != EndBlock ==> Balanced([t] + ts, d) == Balanced(ts, d)
  {
  }

  lemma {:induction false} SpelledIsBalanced(m: Message, tail: seq<Token>, d: nat)
    requires WellSpelled(m)
    ensures Balanced(Spell(m) + tail, d) == Balanced(tail, d)
    decreases m
  {
    if m.Empty? {
      assert Spell(m) + tail == tail;
    } else {
      var more := Spell(m.rest) + tail;
      assert Spell(m) + tail == [m.name] + (SpellTree(m.value) + more);
      BalancedStep(m.name, SpellTree(m.value) + more, d);
      SpelledTreeIsBalanced(m.value, more, d);
      SpelledIsBalanced(m.rest, tail, d);
    }
  }

  lemma {:induction false} SpelledTreeIsBalanced(t: Tree, tail: seq<Token>, d: nat)
    requires WellSpelledTree(t)
    ensures Balanced(SpellTree(t) + tail, d) == Balanced(tail, d)
    decreases t
  {
    if t.Node? {
      var after := [t.end] + tail;
      assert SpellTree(t) + tail == [t.start] + (Spell(t.body) + after);
      BalancedStep(t.start, Spell(t.body) + after, d);
      SpelledIsBalanced(t.body, after, d + 1);
      BalancedStep(t.end, tail, d);
    } else {
      BalancedStep(t.token, tail, d);
    }
  }

  /** Unbalanced blocks are rejected. */
  lemma {:induction false} ReadIsBalanced(ts: seq<Token>)
    requires Read(ts, true).Ok?
    ensures Balanced(ts, 0)
  {
    var m := Read(ts, true).value.body;
    ReadIffSpells(ts, m);
    SpelledIsBalanced(m, [], 0);
    assert Spell(m) + [] == ts;
  }
}
