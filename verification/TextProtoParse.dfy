/** Parsing text proto: from lines of text to nested dictionaries. */
module TextProtoParse {
  import opened Text
  import opened TextProtoLexer
  import opened TextProto
  import opened TextProtoDict

  // ---- converting a message

  /** The name without its colon. */
  function NameOf(field: Token): string {
    if field.text == [] then [] else field.text[..|field.text| - 1]
  }

  function Finish(groups: seq<Group>): Result<seq<Entry>> {
    if groups == [] then Ok([])
    else
      var first, rest := AutoDict(groups[0].values), Finish(groups[1..]);
      if first.Err? then Err(first.message)
      else if rest.Err? then rest
      else Ok([Entry(groups[0].name, first.value)] + rest.value)
  }

  function ToDict(ns: seq<Named>): Result<Value> {
    var entries := Finish(Collect(ns));
    if entries.Err? then Err(entries.message) else Ok(Dict(entries.value))
  }

  function ConvertFields(m: Message): Result<seq<Named>>
    decreases m, 0
  {
    if m.Empty? then Ok([])
    else
      var first, rest := ConvertTree(m.value), ConvertFields(m.rest);
      if first.Err? then Err(first.message)
      else if rest.Err? then rest
      else Ok([Named(NameOf(m.name), first.value)] + rest.value)
  }

  function Convert(m: Message): Result<Value>
    decreases m, 1
  {
    var ns := ConvertFields(m);
    if ns.Err? then Err(ns.message) else ToDict(ns.value)
  }

  function ConvertTree(t: Tree): (r: Result<Value>)
    ensures r.Ok? ==> (r.value.Scalar? <==> t.Leaf?)
    decreases t, 0
  {
    match t
    case Leaf(token) => Ok(Scalar(token))
    case Node(start, body, end) => Convert(body)
  }

  // ---- what a converted message holds

  /** The values written under one name, in order. */
  function TreesOf(m: Message, name: string): (ts: seq<Tree>)
    ensures forall t :: t in ts ==> t < m
  {
    if m.Empty? then [] else (if NameOf(m.name) == name then [m.value] else []) + TreesOf(m.rest, name)
  }

  predicate AllConvert(ts: seq<Tree>) {
    forall t :: t in ts ==> ConvertTree(t).Ok?
  }

  function Converted(ts: seq<Tree>): (vs: seq<Value>)
    requires AllConvert(ts)
    ensures |vs| == |ts| && forall i :: 0 <= i < |ts| ==> vs[i] == ConvertTree(ts[i]).value
  {
    if ts == [] then [] else [ConvertTree(ts[0]).value] + Converted(ts[1..])
  }

  lemma {:induction false} ValuesOfFront(n: Named, ns: seq<Named>, name: string)
    ensures ValuesOf([n] + ns, name) == (if n.name == name then [n.value] else []) + ValuesOf(ns, name)
  {
    if ns == [] {
      assert [n] + ns == [n] && [n][..0] == [];
      assert ValuesOf([n][..0], name) == [];
    } else {
      var k := |ns| - 1;
      ValuesOfFront(n, ns[..k], name);
      assert ([n] + ns)[..k + 1] == [n] + ns[..k];
    }
  }

  lemma {:induction false} FieldsUnderName(m: Message, name: string)
    requires ConvertFields(m).Ok?
    ensures AllConvert(TreesOf(m, name))
    ensures ValuesOf(ConvertFields(m).value, name) == Converted(TreesOf(m, name))
  {
    if m.Field? {
      FieldsUnderName(m.rest, name);
      ValuesOfFront(Named(NameOf(m.name), ConvertTree(m.value).value), ConvertFields(m.rest).value, name);
    }
  }

  lemma {:induction false} FinishGets(groups: seq<Group>, name: string)
    requires Tidy(groups) && Finish(groups).Ok?
    ensures AutoDict(Lookup(groups, name)).Ok?
    ensures Get(Finish(groups).value, name) ==
            if Lookup(groups, name) == [] then None else Some(AutoDict(Lookup(groups, name)).value)
  {
    if groups != [] {
      FinishGets(groups[1..], name);
      assert Finish(groups).value[1..] == Finish(groups[1..]).value;
    }
  }

  /** A converted message holds, under each name, the converted values written under that name, in order: as a list,
      or as a map when all of them are key-value pairs. */
  lemma {:induction false} FieldsAreGrouped(m: Message, name: string)
    requires Convert(m).Ok?
    ensures AllConvert(TreesOf(m, name)) && AutoDict(Converted(TreesOf(m, name))).Ok?
    ensures Get(Convert(m).value.entries, name) ==
            if TreesOf(m, name) == [] then None else Some(AutoDict(Converted(TreesOf(m, name))).value)
  {
    var ns := ConvertFields(m).value;
    FieldsUnderName(m, name);
    CollectIsTidy(ns);
    CollectGroups(ns, name);
    FinishGets(Collect(ns), name);
  }

  // ---- when conversion succeeds

  predicate OnlyKeyValue(m: Message) {
    m.Empty? || ((NameOf(m.name) == "key" || NameOf(m.name) == "value") && OnlyKeyValue(m.rest))
  }

  /** Written as a pair: fields key and value, and no other. */
  predicate WrittenAsPair(t: Tree) {
    t.Node? && TreesOf(t.body, "key") != [] && TreesOf(t.body, "value") != [] && OnlyKeyValue(t.body)
  }

  /** Values that become a map. */
  predicate WrittenAsMap(ts: seq<Tree>) {
    ts != [] && forall t :: t in ts ==> WrittenAsPair(t)
  }

  /** A pair whose key is a plain value, and whose value is not a map itself. */
  predicate PairIsFlat(t: Tree) {
    WrittenAsPair(t) && TreesOf(t.body, "key")[0].Leaf? && !WrittenAsMap(TreesOf(t.body, "value"))
  }

  predicate MapIsFlat(ts: seq<Tree>) {
    WrittenAsMap(ts) ==> forall t :: t in ts ==> PairIsFlat(t)
  }

  ghost predicate Convertible(m: Message)
    decreases m, 1
  {
    PartsConvertible(m) && forall name :: MapIsFlat(TreesOf(m, name))
  }

  ghost predicate PartsConvertible(m: Message)
    decreases m, 0
  {
    m.Empty? || ((m.value.Node? ==> Convertible(m.value.body)) && PartsConvertible(m.rest))
  }

  lemma {:induction false} EntryIsFound(entries: seq<Entry>, e: Entry)
    requires e in entries
    ensures Get(entries, e.name).Some?
  {
    if entries[0].name != e.name { EntryIsFound(entries[1..], e); }
  }

  lemma {:induction false} FoundIsEntry(entries: seq<Entry>, name: string) returns (e: Entry)
    requires Get(entries, name).Some?
    ensures e in entries && e.name == name
  {
    e := entries[0];
    if entries[0].name != name { e := FoundIsEntry(entries[1..], name); }
  }

  lemma {:induction false} OnlyNames(m: Message, name: string)
    requires OnlyKeyValue(m) && TreesOf(m, name) != []
    ensures name == "key" || name == "value"
  {
    if NameOf(m.name) != name { OnlyNames(m.rest, name); }
  }

  lemma {:induction false} OtherName(m: Message) returns (name: string)
    requires !OnlyKeyValue(m)
    ensures TreesOf(m, name) != [] && name != "key" && name != "value"
  {
    name := NameOf(m.name);
    if name == "key" || name == "value" { name := OtherName(m.rest); }
  }

  lemma {:induction false} PairIffWritten(t: Tree)
    requires ConvertTree(t).Ok?
    ensures IsPair(ConvertTree(t).value) <==> WrittenAsPair(t)
  {
    if t.Node? {
      var m, entries := t.body, ConvertTree(t).value.entries;
      FieldsAreGrouped(m, "key");
      FieldsAreGrouped(m, "value");
      if OnlyKeyValue(m) {
        forall e | e in entries ensures e.name == "key" || e.name == "value" {
          EntryIsFound(entries, e);
          FieldsAreGrouped(m, e.name);
          OnlyNames(m, e.name);
        }
      } else {
        var name := OtherName(m);
        FieldsAreGrouped(m, name);
        var e := FoundIsEntry(entries, name);
      }
    }
  }

  lemma {:induction false} MapIffWritten(ts: seq<Tree>)
    requires AllConvert(ts)
    ensures (Converted(ts) != [] && forall v :: v in Converted(ts) ==> IsPair(v)) <==> WrittenAsMap(ts)
  {
    forall i | 0 <= i < |ts| ensures IsPair(Converted(ts)[i]) <==> WrittenAsPair(ts[i]) {
      PairIffWritten(ts[i]);
    }
    assert WrittenAsMap(ts) ==> forall i :: 0 <= i < |ts| ==> IsPair(Converted(ts)[i]);
    assert ts != [] && (forall v :: v in Converted(ts) ==> IsPair(v)) ==> WrittenAsMap(ts) by {
      if forall v :: v in Converted(ts) ==> IsPair(v) {
        forall t | t in ts ensures WrittenAsPair(t) {
          var i :| 0 <= i < |ts| && ts[i] == t;
          assert Converted(ts)[i] in Converted(ts);
        }
      }
    }
  }

  lemma {:induction false} FirstReadsIff(m: Message, name: string)
    requires Convert(m).Ok? && TreesOf(m, name) != []
    ensures var first := First(Get(Convert(m).value.entries, name));
            && (first.Ok? <==> !WrittenAsMap(TreesOf(m, name)))
            && (first.Ok? ==> (first.value.Scalar? <==> TreesOf(m, name)[0].Leaf?))
  {
    var trees := TreesOf(m, name);
    FieldsAreGrouped(m, name);
    MapIffWritten(trees);
    assert Converted(trees)[0] == ConvertTree(trees[0]).value;
  }

  lemma {:induction false} PairConvertsIff(t: Tree)
    requires ConvertTree(t).Ok? && WrittenAsPair(t)
    ensures PairOf(ConvertTree(t).value).Ok? <==> PairIsFlat(t)
  {
    FirstReadsIff(t.body, "key");
    FirstReadsIff(t.body, "value");
    assert TreesOf(t.body, "key")[0] in TreesOf(t.body, "key");
  }

  lemma {:induction false} PairsConvertIff(values: seq<Value>)
    ensures PairsOf(values).Ok? <==> forall v :: v in values ==> PairOf(v).Ok?
  {
    if values != [] { PairsConvertIff(values[1..]); }
  }

  lemma {:induction false} AutoDictIff(ts: seq<Tree>)
    requires AllConvert(ts)
    ensures AutoDict(Converted(ts)).Ok? <==> MapIsFlat(ts)
  {
    MapIffWritten(ts);
    if WrittenAsMap(ts) {
      PairsConvertIff(Converted(ts));
      forall i | 0 <= i < |ts| ensures PairOf(Converted(ts)[i]).Ok? <==> PairIsFlat(ts[i]) {
        PairConvertsIff(ts[i]);
      }
      if !MapIsFlat(ts) {
        var i :| 0 <= i < |ts| && !PairIsFlat(ts[i]);
        assert Converted(ts)[i] in Converted(ts);
      }
    }
  }

  lemma {:induction false} FinishFails(groups: seq<Group>) returns (name: string)
    requires Tidy(groups) && Finish(groups).Err?
    ensures AutoDict(Lookup(groups, name)).Err?
  {
    name := groups[0].name;
    if AutoDict(groups[0].values).Ok? { name := FinishFails(groups[1..]); }
  }

  lemma {:induction false} ConvertFails(m: Message) returns (name: string)
    requires ConvertFields(m).Ok? && Convert(m).Err?
    ensures !MapIsFlat(TreesOf(m, name))
  {
    var ns := ConvertFields(m).value;
    CollectIsTidy(ns);
    name := FinishFails(Collect(ns));
    CollectGroups(ns, name);
    FieldsUnderName(m, name);
    AutoDictIff(TreesOf(m, name));
  }

  lemma {:induction false} FieldsConvertIff(m: Message)
    ensures ConvertFields(m).Ok? <==> PartsConvertible(m)
    decreases m, 0
  {
    if m.Field? {
      if m.value.Node? { ConvertsIff(m.value.body); }
      FieldsConvertIff(m.rest);
    }
  }

  /** Conversion succeeds exactly when no map, at any depth, has a block for a key or a map for a value. */
  lemma {:induction false} ConvertsIff(m: Message)
    ensures Convert(m).Ok? <==> Convertible(m)
    decreases m, 1
  {
    FieldsConvertIff(m);
    if Convert(m).Ok? {
      forall name ensures MapIsFlat(TreesOf(m, name)) {
        FieldsAreGrouped(m, name);
        AutoDictIff(TreesOf(m, name));
      }
    } else if ConvertFields(m).Ok? {
      var name := ConvertFails(m);
    }
  }

  /** A map in a map does not parse, whatever its keys and delimiters. */
  lemma {:induction false} NestedMapFails(
      name: Token, key: Token, value: Token, a: Tree, b: Tree, outer: Tree, inner: Tree)
    requires NameOf(key) == "key" && NameOf(value) == "value"
    requires inner.Node? && inner.body == Field(key, a, Field(value, b, Empty))
    requires outer.Node? && outer.body == Field(key, a, Field(value, inner, Empty))
    ensures Convert(Field(name, outer, Empty)).Err?
  {
    PairIsWritten(key, value, a, b, inner);
    PairIsWritten(key, value, a, inner, outer);
    var m := Field(name, outer, Empty);
    assert TreesOf(Empty, NameOf(name)) == [];
    assert TreesOf(m, NameOf(name)) == [outer];
    assert outer in TreesOf(m, NameOf(name));
    assert inner in TreesOf(outer.body, "value");
    ConvertsIff(m);
  }

  lemma {:induction false} PairIsWritten(key: Token, value: Token, a: Tree, b: Tree, pair: Tree)
    requires NameOf(key) == "key" && NameOf(value) == "value"
    requires pair.Node? && pair.body == Field(key, a, Field(value, b, Empty))
    ensures WrittenAsPair(pair) && TreesOf(pair.body, "key") == [a] && TreesOf(pair.body, "value") == [b]
  {
    var rest := Field(value, b, Empty);
    assert TreesOf(Empty, "key") == [] && TreesOf(Empty, "value") == [];
    assert TreesOf(rest, "key") == [] && TreesOf(rest, "value") == [b];
    assert OnlyKeyValue(Empty) && OnlyKeyValue(rest);
  }

  // ---- the parser

  /** The iterator over tokens that all the calls of the parser share. */
  class TokenStream {
    var rest: seq<Token>

    constructor (ts: seq<Token>)
      ensures rest == ts
    {
      rest := ts;
    }
  }

  /** r is the outcome of reading a block of ts and converting it, leaving `rest` unread. */
  ghost predicate BlockResult(r: Result<Value>, ts: seq<Token>, top: bool, rest: seq<Token>) {
    && (r.Ok? <==> Read(ts, top).Ok? && Convert(Read(ts, top).value.body).Ok?)
    && (r.Ok? ==> r == Convert(Read(ts, top).value.body) && rest == Read(ts, top).value.rest)
  }

  ghost predicate ValueResult(r: Result<Value>, ts: seq<Token>, rest: seq<Token>) {
    && (r.Ok? <==> ReadValue(ts).Ok? && ConvertTree(ReadValue(ts).value.0).Ok?)
    && (r.Ok? ==> r == ConvertTree(ReadValue(ts).value.0) && rest == ReadValue(ts).value.1)
  }

  /** The fields read so far, as written, converted and grouped. */
  ghost predicate Parsing(start: seq<Token>, top: bool, cur: seq<Token>, done: Message, ns: seq<Named>) {
    Read(start, top) == Before(done, Read(cur, top)) && ConvertFields(done) == Ok(ns)
  }

  lemma {:induction false} BeforeAppend(a: Message, b: Message, r: Result<Block>)
    ensures Before(a, Before(b, r)) == Before(Append(a, b), r)
  {
    if r.Ok? { AppendMore(a, b, r.value.body); }
  }

  lemma {:induction false} FieldsOfAppend(a: Message, b: Message)
    ensures ConvertFields(a).Ok? && ConvertFields(b).Ok? ==>
              ConvertFields(Append(a, b)) == Ok(ConvertFields(a).value + ConvertFields(b).value)
    ensures ConvertFields(b).Err? ==> ConvertFields(Append(a, b)).Err?
  {
    if a.Field? {
      FieldsOfAppend(a.rest, b);
    } else if ConvertFields(b).Ok? {
      assert ConvertFields(a) == Ok([]) && [] + ConvertFields(b).value == ConvertFields(b).value;
    }
    if a.Field? && ConvertFields(a).Ok? && ConvertFields(b).Ok? {
      var n := [Named(NameOf(a.name), ConvertTree(a.value).value)];
      var x, y := ConvertFields(a.rest).value, ConvertFields(b).value;
      assert n + (x + y) == n + x + y;
    }
  }

  lemma {:induction false} OneField(f: Token, t: Tree)
    ensures ConvertTree(t).Ok? ==>
              ConvertFields(Field(f, t, Empty)) == Ok([Named(NameOf(f), ConvertTree(t).value)])
    ensures forall more :: ConvertTree(t).Err? ==> ConvertFields(Field(f, t, more)).Err?
  {
    assert ConvertFields(Empty) == Ok([]);
    if ConvertTree(t).Ok? {
      var n := [Named(NameOf(f), ConvertTree(t).value)];
      assert n + [] == n;
    }
  }

  lemma {:induction false} ParsedField(
      start: seq<Token>, top: bool, cur: seq<Token>, done: Message, ns: seq<Named>, v: Value, rest: seq<Token>)
    requires Parsing(start, top, cur, done, ns)
    requires cur != [] && cur[0].kind == FieldName && ValueResult(Ok(v), cur[1..], rest)
    ensures var t := ReadValue(cur[1..]).value.0;
            Parsing(start, top, rest, Append(done, Field(cur[0], t, Empty)), ns + [Named(NameOf(cur[0]), v)])
  {
    var one := Field(cur[0], ReadValue(cur[1..]).value.0, Empty);
    BeforeAppend(done, one, Read(rest, top));
    OneField(cur[0], one.value);
    FieldsOfAppend(done, one);
  }

  lemma {:induction false} FailedField(
      start: seq<Token>, top: bool, cur: seq<Token>, done: Message, ns: seq<Named>, e: string, rest: seq<Token>)
    requires Parsing(start, top, cur, done, ns)
    requires cur != [] && cur[0].kind == FieldName && ValueResult(Err(e), cur[1..], rest)
    ensures BlockResult(Err(e), start, top, rest)
  {
    if Read(start, top).Ok? {
      var v := ReadValue(cur[1..]).value;
      var more := Read(v.1, top).value.body;
      AppendOne(cur[0], v.0, more);
      OneField(cur[0], v.0);
      FieldsOfAppend(done, Field(cur[0], v.0, more));
    }
  }

  lemma {:induction false} ParsedBlock(
      start: seq<Token>, top: bool, cur: seq<Token>, done: Message, ns: seq<Named>, rest: seq<Token>)
    requires Parsing(start, top, cur, done, ns)
    requires Read(cur, top).Ok? && Read(cur, top).value.body == Empty && Read(cur, top).value.rest == rest
    ensures BlockResult(ToDict(ns), start, top, rest)
  {
    AppendMore(done, Empty, Empty);
  }

  method ParseBlock(s: TokenStream, top: bool) returns (r: Result<Value>)
    modifies s
    ensures BlockResult(r, old(s.rest), top, s.rest) && |s.rest| <= |old(s.rest)|
    decreases |s.rest|, 1
  {
    ghost var start := s.rest;
    ghost var done, ns: seq<Named> := Empty, [];
    var groups: seq<Group> := [];
    while true
      invariant |s.rest| <= |start| && Parsing(start, top, s.rest, done, ns) && groups == Collect(ns)
      decreases |s.rest|
    {
      ghost var cur := s.rest;
      if s.rest == [] {
        if top {
          ParsedBlock(start, top, cur, done, ns, s.rest);
          break;
        }
        return Err("missing end-of-block");
      }
      var field := s.rest[0];
      s.rest := s.rest[1..];
      if field.kind == EndBlock {
        if top { return Err("unexpected end-of-block"); }
        ParsedBlock(start, top, cur, done, ns, s.rest);
        break;
      }
      if field.kind != FieldName { return Err("expected a field name"); }
      var v := ParseValue(s);
      if v.Err? {
        FailedField(start, top, cur, done, ns, v.message, s.rest);
        return v;
      }
      ParsedField(start, top, cur, done, ns, v.value, s.rest);
      groups := CollectMore(groups, ns, Named(NameOf(field), v.value));
      ns := ns + [Named(NameOf(field), v.value)];
      done := Append(done, Field(field, ReadValue(cur[1..]).value.0, Empty));
    }
    var entries := Finish(groups);
    r := if entries.Err? then Err(entries.message) else Ok(Dict(entries.value));
  }

  function CollectMore(groups: seq<Group>, ghost ns: seq<Named>, n: Named): (r: seq<Group>)
    requires groups == Collect(ns)
    ensures r == Collect(ns + [n])
  {
    assert (ns + [n])[..|ns|] == ns;
    Add(groups, n)
  }

  method ParseValue(s: TokenStream) returns (r: Result<Value>)
    modifies s
    ensures ValueResult(r, old(s.rest), s.rest)
    ensures r.Ok? ==> |s.rest| < |old(s.rest)|
    ensures |s.rest| <= |old(s.rest)|
    decreases |s.rest|, 0
  {
    if s.rest == [] { return Err("expecting a value or start-of-block"); }
    var t := s.rest[0];
    s.rest := s.rest[1..];
    if t.kind == StartBlock {
      r := ParseBlock(s, false);
    } else if ValueKind(t.kind) {
      r := Ok(Scalar(t));
    } else {
      r := Err("unexpected token");
    }
  }

  // ---- from lines

  function LexLines(lines: seq<string>): Result<seq<Token>> {
    if lines == [] then Ok([])
    else
      var first, rest := Lex(lines[0]), LexLines(lines[1..]);
      if first.Err? then first else Onto(first.value, rest)
  }

  /** The message that lines of text are read as. */
  function ReadLines(lines: seq<string>): Result<Message> {
    var ts := LexLines(lines);
    if ts.Err? then Err(ts.message)
    else
      var b := Read(Significants(ts.value), true);
      if b.Err? then Err(b.message) else Ok(b.value.body)
  }

  /** `parse`: succeeds exactly on lines that spell a message without a map in a map, and gives its conversion. */
  method Parse(lines: seq<string>) returns (r: Result<Value>)
    ensures r.Ok? <==> ReadLines(lines).Ok? && Convertible(ReadLines(lines).value)
    ensures r.Ok? ==> r == Convert(ReadLines(lines).value)
  {
    var ts: seq<Token> := [];
    OntoMore([], [], LexLines(lines));
    assert lines[0..] == lines;
    for i := 0 to |lines|
      invariant LexLines(lines) == Onto(ts, LexLines(lines[i..]))
    {
      assert lines[i..][1..] == lines[i + 1..];
      var tokens := LexLine(lines[i]);
      if tokens.Err? { return Err(tokens.message); }
      OntoMore(ts, tokens.value, LexLines(lines[i + 1..]));
      ts := ts + tokens.value;
    }
    OntoMore(ts, [], Ok([]));
    var s := new TokenStream(Significants(ts));
    r := ParseBlock(s, true);
    if ReadLines(lines).Ok? { ConvertsIff(ReadLines(lines).value); }
  }

  /** Lines of tokens, printed. */
  function Printed(layout: seq<seq<Token>>): seq<string> {
    if layout == [] then [] else [Unlex(layout[0])] + Printed(layout[1..])
  }

  function Flat(layout: seq<seq<Token>>): seq<Token> {
    if layout == [] then [] else layout[0] + Flat(layout[1..])
  }

  lemma {:induction false} PrintedLexes(layout: seq<seq<Token>>)
    requires forall ts :: ts in layout ==> Apart(ts)
    ensures LexLines(Printed(layout)) == Ok(Flat(layout))
  {
    if layout != [] {
      LexUndoesUnlex(layout[0]);
      PrintedLexes(layout[1..]);
      assert Printed(layout)[1..] == Printed(layout[1..]);
    }
  }

  /** However a message is laid out in lines, with any white space between tokens, it is read back. */
  lemma {:induction false} AnyLayoutIsRead(layout: seq<seq<Token>>, m: Message)
    requires forall ts :: ts in layout ==> Apart(ts)
    requires WellSpelled(m) && Significants(Flat(layout)) == Spell(m)
    ensures ReadLines(Printed(layout)) == Ok(m)
  {
    PrintedLexes(layout);
    ReadIffSpells(Spell(m), m);
  }
}
