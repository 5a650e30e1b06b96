/** What a text proto message is parsed into: fields grouped by name, and lists of key-value pairs as maps. */
module TextProtoDict {
  import opened Text
  import opened TextProtoLexer
  import opened TextProto

  datatype Value = Scalar(token: Token) | Dict(entries: seq<Entry>)

  datatype Entry = Entry(name: string, content: Content)

  /** The values of a field: a list, or the dictionary that a list of key-value pairs becomes. */
  datatype Content = Repeated(values: seq<Value>) | Mapped(pairs: seq<Pair>)

  datatype Pair = Pair(key: string, value: Value)

  // ---- grouping by name

  /** A value under its field's name. */
  datatype Named = Named(name: string, value: Value)

  datatype Group = Group(name: string, values: seq<Value>)

  /** `result[name].append(v)` on a dictionary of lists, in insertion order. */
  function Add(groups: seq<Group>, n: Named): seq<Group> {
    if groups == [] then [Group(n.name, [n.value])]
    else if groups[0].name == n.name then [Group(n.name, groups[0].values + [n.value])] + groups[1..]
    else [groups[0]] + Add(groups[1..], n)
  }

  function Collect(ns: seq<Named>): seq<Group> {
    if ns == [] then [] else Add(Collect(ns[..|ns| - 1]), ns[|ns| - 1])
  }

  function Lookup(groups: seq<Group>, name: string): seq<Value> {
    if groups == [] then [] else if groups[0].name == name then groups[0].values else Lookup(groups[1..], name)
  }

  /** The values under one name, in order. */
  function ValuesOf(ns: seq<Named>, name: string): seq<Value> {
    if ns == [] then []
    else ValuesOf(ns[..|ns| - 1], name) + if ns[|ns| - 1].name == name then [ns[|ns| - 1].value] else []
  }

  /** No two groups share a name, and none is empty. */
  predicate Tidy(groups: seq<Group>) {
    groups == [] ||
    (groups[0].values != [] && Lookup(groups[1..], groups[0].name) == [] && Tidy(groups[1..]))
  }

  lemma {:induction false} AddLookup(groups: seq<Group>, n: Named, name: string)
    ensures Lookup(Add(groups, n), name) == Lookup(groups, name) + if name == n.name then [n.value] else []
  {
    if groups != [] && groups[0].name != n.name {
      AddLookup(groups[1..], n, name);
      assert Add(groups, n)[1..] == Add(groups[1..], n);
    }
  }

  lemma {:induction false} AddKeepsTidy(groups: seq<Group>, n: Named)
    requires Tidy(groups)
    ensures Tidy(Add(groups, n))
  {
    if groups != [] {
      var rest := groups[1..];
      if groups[0].name == n.name {
        assert Add(groups, n)[1..] == rest;
      } else {
        AddKeepsTidy(rest, n);
        AddLookup(rest, n, groups[0].name);
        assert Add(groups, n)[1..] == Add(rest, n);
      }
    }
  }

  /** Grouping keeps every value under its name, once and in order. */
  lemma {:induction false} CollectGroups(ns: seq<Named>, name: string)
    ensures Lookup(Collect(ns), name) == ValuesOf(ns, name)
  {
    if ns != [] {
      var n := |ns| - 1;
      CollectGroups(ns[..n], name);
      AddLookup(Collect(ns[..n]), ns[n], name);
    }
  }

  lemma {:induction false} CollectIsTidy(ns: seq<Named>)
    ensures Tidy(Collect(ns))
  {
    if ns != [] {
      CollectIsTidy(ns[..|ns| - 1]);
      AddKeepsTidy(Collect(ns[..|ns| - 1]), ns[|ns| - 1]);
    }
  }

  // ---- key-value pairs

  /** `entries[name]` */
  function Get(entries: seq<Entry>, name: string): Option<Content> {
    if entries == [] then None
    else if entries[0].name == name then Some(entries[0].content)
    else Get(entries[1..], name)
  }

  /** A dictionary with just the fields key and value. */
  predicate IsPair(v: Value) {
    v.Dict? && Get(v.entries, "key").Some? && Get(v.entries, "value").Some? &&
    forall e :: e in v.entries ==> e.name == "key" || e.name == "value"
  }

  function StripLeft(s: string): string {
    if s == [] || s[0] != '"' then s else StripLeft(s[1..])
  }

  function StripRight(s: string): string {
    if s == [] || s[|s| - 1] != '"' then s else StripRight(s[..|s| - 1])
  }

  function StripQuotes(s: string): string {
    StripRight(StripLeft(s))
  }

  /** `content[0]`: a list has a first value, a dictionary of pairs has no key 0. */
  function First(c: Option<Content>): Result<Value> {
    if c.Some? && c.value.Repeated? && c.value.values != [] then Ok(c.value.values[0]) else Err("KeyError: 0")
  }

  /** The first key, as text, and the first value. */
  function PairOf(v: Value): Result<Pair> {
    if v.Scalar? then Err("not a pair")
    else
      var key, value := First(Get(v.entries, "key")), First(Get(v.entries, "value"));
      if key.Err? then Err(key.message)
      else if key.value.Dict? then Err("'dict' object has no attribute 'text'")
      else if value.Err? then Err(value.message)
      else Ok(Pair(StripQuotes(key.value.token.text), value.value))
  }

  function PairsOf(values: seq<Value>): (r: Result<seq<Pair>>)
    ensures r.Ok? ==> |r.value| == |values|
  {
    if values == [] then Ok([])
    else
      var first, rest := PairOf(values[0]), PairsOf(values[1..]);
      if first.Err? then Err(first.message) else if rest.Err? then rest else Ok([first.value] + rest.value)
  }

  /** `d[key] = value` in insertion order. */
  function Put(d: seq<Pair>, p: Pair): seq<Pair> {
    if d == [] then [p] else if d[0].key == p.key then [p] + d[1..] else [d[0]] + Put(d[1..], p)
  }

  function PutAll(ps: seq<Pair>): seq<Pair> {
    if ps == [] then [] else Put(PutAll(ps[..|ps| - 1]), ps[|ps| - 1])
  }

  function AutoDict(values: seq<Value>): Result<Content> {
    if values == [] || !(forall v :: v in values ==> IsPair(v)) then Ok(Repeated(values))
    else
      var ps := PairsOf(values);
      if ps.Err? then Err(ps.message) else Ok(Mapped(PutAll(ps.value)))
  }

  predicate DistinctKeys(ps: seq<Pair>) {
    forall i, j :: 0 <= i < j < |ps| ==> ps[i].key != ps[j].key
  }

  predicate HasKey(d: seq<Pair>, key: string) {
    exists i :: 0 <= i < |d| && d[i].key == key
  }

  lemma {:induction false} PutNew(d: seq<Pair>, p: Pair)
    ensures !HasKey(d, p.key) ==> Put(d, p) == d + [p]
    ensures HasKey(d, p.key) ==> |Put(d, p)| == |d|
  {
    if d != [] {
      PutNew(d[1..], p);
      assert d == [d[0]] + d[1..];
      assert HasKey(d, p.key) <==> d[0].key == p.key || HasKey(d[1..], p.key) by {
        if i :| 0 <= i < |d| && d[i].key == p.key && i > 0 { assert d[1..][i - 1] == d[i]; }
        if i :| 0 <= i < |d[1..]| && d[1..][i].key == p.key { assert d[i + 1] == d[1..][i]; }
      }
    }
  }

  /** The map holds every pair, in order, exactly when no key is repeated. */
  lemma {:induction false} MapIsLosslessIff(ps: seq<Pair>)
    ensures DistinctKeys(ps) <==> PutAll(ps) == ps
    ensures !DistinctKeys(ps) ==> |PutAll(ps)| < |ps|
  {
    if ps != [] {
      var n := |ps| - 1;
      MapIsLosslessIff(ps[..n]);
      PutNew(PutAll(ps[..n]), ps[n]);
      assert ps == ps[..n] + [ps[n]];
      assert DistinctKeys(ps) <==> DistinctKeys(ps[..n]) && !HasKey(ps[..n], ps[n].key);
    }
  }

  function ValueAt(d: seq<Pair>, key: string): Option<Value> {
    if d == [] then None else if d[0].key == key then Some(d[0].value) else ValueAt(d[1..], key)
  }

  function LastValue(ps: seq<Pair>, key: string): Option<Value> {
    if ps == [] then None
    else if ps[|ps| - 1].key == key then Some(ps[|ps| - 1].value)
    else LastValue(ps[..|ps| - 1], key)
  }

  lemma {:induction false} PutValue(d: seq<Pair>, p: Pair, key: string)
    ensures ValueAt(Put(d, p), key) == if key == p.key then Some(p.value) else ValueAt(d, key)
  {
    if d != [] && d[0].key != p.key {
      PutValue(d[1..], p, key);
      assert Put(d, p)[1..] == Put(d[1..], p);
    }
  }

  /** A key that is repeated keeps its last value. */
  lemma {:induction false} LastPairWins(ps: seq<Pair>, key: string)
    ensures ValueAt(PutAll(ps), key) == LastValue(ps, key)
  {
    if ps != [] {
      var n := |ps| - 1;
      LastPairWins(ps[..n], key);
      PutValue(PutAll(ps[..n]), ps[n], key);
    }
  }

  // ---- a list of pairs as a map

  /** A block with one key and one value. */
  function PairBlock(key: Token, value: Value): Value {
    Dict([Entry("key", Repeated([Scalar(key)])), Entry("value", Repeated([value]))])
  }

  datatype KeyValue = KeyValue(key: Token, value: Value)

  function PairBlocks(kvs: seq<KeyValue>): (vs: seq<Value>)
    ensures |vs| == |kvs| && forall i :: 0 <= i < |vs| ==> vs[i] == PairBlock(kvs[i].key, kvs[i].value)
  {
    if kvs == [] then [] else [PairBlock(kvs[0].key, kvs[0].value)] + PairBlocks(kvs[1..])
  }

  function AsPairs(kvs: seq<KeyValue>): seq<Pair> {
    if kvs == [] then [] else [Pair(StripQuotes(kvs[0].key.text), kvs[0].value)] + AsPairs(kvs[1..])
  }

  lemma {:induction false} PairBlockIsPair(key: Token, value: Value)
    ensures IsPair(PairBlock(key, value))
    ensures PairOf(PairBlock(key, value)) == Ok(Pair(StripQuotes(key.text), value))
  {
    var es := PairBlock(key, value).entries;
    assert es[1..] == [es[1]] && es[1..][0].name == "value";
    assert |"key"| != |"value"|;
    assert Get(es, "key") == Some(es[0].content) && Get(es, "value") == Get(es[1..], "value");
  }

  lemma {:induction false} PairBlocksArePairs(kvs: seq<KeyValue>)
    ensures PairsOf(PairBlocks(kvs)) == Ok(AsPairs(kvs))
  {
    if kvs != [] {
      PairBlockIsPair(kvs[0].key, kvs[0].value);
      assert PairBlocks(kvs)[1..] == PairBlocks(kvs[1..]);
      PairBlocksArePairs(kvs[1..]);
    }
  }

  /** Any list of pairs with distinct keys becomes the map with exactly those pairs, in order. */
  lemma {:induction false} MapKeepsPairs(kvs: seq<KeyValue>)
    requires kvs != []
    ensures AutoDict(PairBlocks(kvs)) == Ok(Mapped(PutAll(AsPairs(kvs))))
    ensures DistinctKeys(AsPairs(kvs)) <==> AutoDict(PairBlocks(kvs)) == Ok(Mapped(AsPairs(kvs)))
  {
    forall i | 0 <= i < |kvs| ensures IsPair(PairBlocks(kvs)[i]) { PairBlockIsPair(kvs[i].key, kvs[i].value); }
    PairBlocksArePairs(kvs);
    MapIsLosslessIff(AsPairs(kvs));
  }

  lemma {:induction false} StripKeepsEnds(s: string)
    ensures StripLeft(s) == [] || StripLeft(s)[0] != '"'
    ensures StripRight(s) == [] || StripRight(s)[|StripRight(s)| - 1] != '"'
    ensures StripRight(s) != [] ==> StripRight(s)[0] == s[0]
    decreases |s|
  {
    if s != [] && s[0] == '"' { StripKeepsEnds(s[1..]); }
    if s != [] && s[|s| - 1] == '"' { StripKeepsEnds(s[..|s| - 1]); }
  }

  /** Stripping a quoted key gives it back exactly when it has no quotation mark of its own at either end. */
  lemma {:induction false} StripUndoesQuoteIff(s: string)
    ensures StripQuotes("\"" + s + "\"") == s <==> s == [] || (s[0] != '"' && s[|s| - 1] != '"')
  {
    var q := "\"" + s + "\"";
    assert q[1..] == s + "\"";
    if s == [] {
      assert q[1..] == "\"" && "\""[1..] == [];
      assert StripLeft("\"") == StripLeft([]) == [] && StripLeft(q) == StripLeft(q[1..]);
    } else if s[0] != '"' {
      assert StripLeft(q) == q[1..];
      assert q[1..][..|s|] == s;
      if s[|s| - 1] == '"' { StripKeepsEnds(s); }
    } else {
      StripKeepsEnds(q);
      StripKeepsEnds(StripLeft(q));
    }
  }
}
