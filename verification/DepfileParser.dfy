/** Depfile tokens as dependencies: line continuations, the state machine that reads one
    dependency, and which texts spell which dependencies. */
module DepfileParser {
  import opened Text
  import opened DepfileLexer

  datatype Dep = Dep(targets: seq<Token>, colon: Token, deps: seq<Token>)

  // ---- line continuations

  /** `consume_line_continuations`, with a backslash held or not. The flag survives a token other than a
      newline, as in the generator. */
  function Consume(ts: seq<Token>, held: bool): seq<Token> {
    if ts == [] then []
    else if held && ts[0].kind == NEWLINE then Consume(ts[1..], false)
    else if ts[0].kind == LINECONTINUE then Consume(ts[1..], true)
    else [ts[0]] + Consume(ts[1..], held)
  }

  method ConsumeLineContinuations(ts: seq<Token>) returns (r: seq<Token>)
    ensures r == Consume(ts, false)
  {
    r := [];
    var held := false;
    for i := 0 to |ts|
      invariant Consume(ts, false) == r + Consume(ts[i..], held)
    {
      var t := ts[i];
      assert ts[i..][1..] == ts[i + 1..];
      if held {
        if t.kind == NEWLINE {
          held := false;
          continue;
        }
      }
      if t.kind == LINECONTINUE {
        held := true;
        continue;
      }
      r := r + [t];
    }
  }

  function Visible(ts: seq<Token>): seq<Token> {
    if ts == [] then []
    else (if ts[0].kind == SPACE || ts[0].kind == COMMENT then [] else [ts[0]]) + Visible(ts[1..])
  }

  /** What the parser sees of a token stream. */
  function Significant(ts: seq<Token>): seq<Token> {
    Visible(Consume(ts, false))
  }

  // ---- one dependency

  datatype Parsed = Parsed(dep: Option<Dep>, rest: seq<Token>)

  function SkipNewlines(ts: seq<Token>): (r: seq<Token>)
    ensures |r| <= |ts|
    ensures r != [] ==> r[0].kind != NEWLINE
  {
    if ts != [] && ts[0].kind == NEWLINE then SkipNewlines(ts[1..]) else ts
  }

  /** How many tokens from the start are paths. */
  function PathRun(ts: seq<Token>): (n: nat)
    ensures n <= |ts|
    ensures forall i :: 0 <= i < n ==> ts[i].kind == PATH
    ensures n < |ts| ==> ts[n].kind != PATH
  {
    if ts != [] && ts[0].kind == PATH then 1 + PathRun(ts[1..]) else 0
  }

  const SYNTAX := "parse error"

  /** The dependencies of a target, up to the end of the line. */
  function ParseDeps(targets: seq<Token>, colon: Token, b: seq<Token>): (r: Result<Parsed>)
    ensures r.Ok? ==> r.value.dep.Some? && |r.value.rest| < |b|
  {
    var m := PathRun(b);
    if m == |b| || b[m].kind != NEWLINE then Err(SYNTAX)
    else Ok(Parsed(Some(Dep(targets, colon, b[..m])), b[m + 1..]))
  }

  /** A dependency from its first target on. */
  function ParseDep(s: seq<Token>): (r: Result<Parsed>)
    ensures r.Ok? ==> r.value.dep.Some? && |r.value.rest| < |s|
  {
    var n := PathRun(s);
    if n == 0 || n == |s| || s[n].kind != COLON then Err(SYNTAX)
    else ParseDeps(s[..n], s[n], s[n + 1..])
  }

  function ParseOne(ts: seq<Token>): (r: Result<Parsed>)
    ensures r.Ok? && r.value.dep.Some? ==> |r.value.rest| < |ts|
  {
    var s := SkipNewlines(ts);
    if s == [] then Ok(Parsed(None, [])) else ParseDep(s)
  }

  lemma {:induction false} RunOfPaths(a: seq<Token>, b: seq<Token>)
    requires forall i :: 0 <= i < |a| ==> a[i].kind == PATH
    requires b == [] || b[0].kind != PATH
    ensures PathRun(a + b) == |a|
  {
    var s := a + b;
    assert forall k :: 0 <= k < |a| ==> s[k] == a[k];
    assert b != [] ==> s[|a|] == b[0];
  }

  datatype ParserState = FIRST_TARGET | TARGET_OR_COLON | DEP_OR_NEWLINE

  predicate AllPaths(ts: seq<Token>) {
    forall i :: 0 <= i < |ts| ==> ts[i].kind == PATH
  }

  lemma {:induction false} ParseTargetsOnly(targets: seq<Token>, rest: seq<Token>)
    requires targets != [] && AllPaths(targets)
    requires rest == [] || (rest[0].kind != PATH && rest[0].kind != COLON)
    ensures ParseDep(targets + rest) == Err(SYNTAX)
  {
    RunOfPaths(targets, rest);
    assert rest != [] ==> (targets + rest)[|targets|] == rest[0];
  }

  lemma {:induction false} Pieces(a: seq<Token>, t: Token, b: seq<Token>)
    ensures var s := a + [t] + b; s == a + ([t] + b) && s[..|a|] == a && s[|a|] == t && s[|a| + 1..] == b
  {
  }

  lemma {:induction false} ParseWholeDeps(d: Dep, rest: seq<Token>)
    requires AllPaths(d.deps)
    requires rest == [] || rest[0].kind != PATH
    ensures ParseDeps(d.targets, d.colon, d.deps + rest) ==
            if rest != [] && rest[0].kind == NEWLINE then Ok(Parsed(Some(d), rest[1..])) else Err(SYNTAX)
  {
    RunOfPaths(d.deps, rest);
    if rest != [] {
      assert d.deps + rest == d.deps + [rest[0]] + rest[1..];
      Pieces(d.deps, rest[0], rest[1..]);
    }
  }

  lemma {:induction false} ParseWholeTargets(targets: seq<Token>, colon: Token, b: seq<Token>)
    requires targets != [] && AllPaths(targets) && colon.kind == COLON
    ensures ParseDep(targets + [colon] + b) == ParseDeps(targets, colon, b)
  {
    Pieces(targets, colon, b);
    RunOfPaths(targets, [colon] + b);
  }

  lemma {:induction false} ParseWholeDep(d: Dep, rest: seq<Token>)
    requires WellFormed(d)
    requires rest == [] || rest[0].kind != PATH
    ensures ParseDep(Spelling(d) + rest) ==
            if rest != [] && rest[0].kind == NEWLINE then Ok(Parsed(Some(d), rest[1..])) else Err(SYNTAX)
  {
    assert Spelling(d) + rest == d.targets + [d.colon] + (d.deps + rest);
    ParseWholeTargets(d.targets, d.colon, d.deps + rest);
    ParseWholeDeps(d, rest);
  }

  predicate WellFormed(d: Dep) {
    d.targets != [] && AllPaths(d.targets) && d.colon.kind == COLON && AllPaths(d.deps)
  }

  function Spelling(d: Dep): seq<Token> {
    d.targets + [d.colon] + d.deps
  }

  /** The state machine on a list of tokens. */
  function Drive(state: ParserState, targets: seq<Token>, colon: Token, deps: seq<Token>, ts: seq<Token>):
    Result<Parsed>
    decreases |ts|
  {
    if ts == [] then
      if state == FIRST_TARGET then Ok(Parsed(None, [])) else Err(SYNTAX)
    else
      var tok, rest := ts[0], ts[1..];
      match (state, tok.kind)
      case (FIRST_TARGET, NEWLINE) => Drive(state, targets, colon, deps, rest)
      case (FIRST_TARGET, PATH) => Drive(TARGET_OR_COLON, targets + [tok], colon, deps, rest)
      case (TARGET_OR_COLON, PATH) => Drive(state, targets + [tok], colon, deps, rest)
      case (TARGET_OR_COLON, COLON) => Drive(DEP_OR_NEWLINE, targets, tok, deps, rest)
      case (DEP_OR_NEWLINE, PATH) => Drive(state, targets, colon, deps + [tok], rest)
      case (DEP_OR_NEWLINE, NEWLINE) => Ok(Parsed(Some(Dep(targets, colon, deps)), rest))
      case _ => Err(SYNTAX)
  }

  lemma {:induction false} DriveDeps(d: Dep, ts: seq<Token>)
    requires WellFormed(d)
    ensures Drive(DEP_OR_NEWLINE, d.targets, d.colon, d.deps, ts) == ParseDep(Spelling(d) + ts)
    decreases |ts|
  {
    if ts != [] && ts[0].kind == PATH {
      var d2 := d.(deps := d.deps + [ts[0]]);
      DriveDeps(d2, ts[1..]);
      assert Spelling(d2) + ts[1..] == Spelling(d) + ts;
    } else {
      ParseWholeDep(d, ts);
    }
  }

  lemma {:induction false} DriveColon(targets: seq<Token>, colon: Token, ts: seq<Token>)
    requires targets != [] && AllPaths(targets) && ts != [] && ts[0].kind == COLON
    ensures Drive(TARGET_OR_COLON, targets, colon, [], ts) == ParseDep(targets + ts)
  {
    var d := Dep(targets, ts[0], []);
    assert Drive(TARGET_OR_COLON, targets, colon, [], ts) == Drive(DEP_OR_NEWLINE, targets, ts[0], [], ts[1..]);
    assert Spelling(d) + ts[1..] == targets + ts;
    DriveDeps(d, ts[1..]);
  }

  lemma {:induction false} DriveTargets(targets: seq<Token>, colon: Token, ts: seq<Token>)
    requires targets != [] && AllPaths(targets)
    ensures Drive(TARGET_OR_COLON, targets, colon, [], ts) == ParseDep(targets + ts)
    decreases |ts|
  {
    if ts == [] || (ts[0].kind != PATH && ts[0].kind != COLON) {
      ParseTargetsOnly(targets, ts);
    } else if ts[0].kind == PATH {
      var more := targets + [ts[0]];
      assert more + ts[1..] == targets + ts;
      assert Drive(TARGET_OR_COLON, more, colon, [], ts[1..]) == ParseDep(more + ts[1..]) by {
        DriveTargets(more, colon, ts[1..]);
      }
    } else {
      DriveColon(targets, colon, ts);
    }
  }

  lemma {:induction false} DriveIsParse(colon: Token, ts: seq<Token>)
    ensures Drive(FIRST_TARGET, [], colon, [], ts) == ParseOne(ts)
  {
    if ts != [] && ts[0].kind == NEWLINE {
      DriveIsParse(colon, ts[1..]);
    } else if ts != [] && ts[0].kind == PATH {
      assert [] + [ts[0]] == [ts[0]];
      DriveTargets([ts[0]], colon, ts[1..]);
      assert [ts[0]] + ts[1..] == ts;
    }
  }

  /** `_parse_one_dep`: the loop over the token iterator, which is left after the dependency. */
  method ParseOneDep(ts: seq<Token>) returns (r: Result<Parsed>)
    ensures r == ParseOne(ts)
  {
    var state, targets, colon, deps := FIRST_TARGET, [], Token("", COLON), [];
    DriveIsParse(colon, ts);
    for i := 0 to |ts|
      invariant ParseOne(ts) == Drive(state, targets, colon, deps, ts[i..])
    {
      var tok := ts[i];
      assert ts[i..][0] == tok && ts[i..][1..] == ts[i + 1..];
      match state
      case FIRST_TARGET =>
        if tok.kind == NEWLINE {
          continue;
        }
        if tok.kind == PATH {
          targets := targets + [tok];
          state := TARGET_OR_COLON;
          continue;
        }
        return Err(SYNTAX);
      case TARGET_OR_COLON =>
        if tok.kind == PATH {
          targets := targets + [tok];
          continue;
        }
        if tok.kind == COLON {
          colon := tok;
          state := DEP_OR_NEWLINE;
          continue;
        }
        return Err(SYNTAX);
      case DEP_OR_NEWLINE =>
        if tok.kind == PATH {
          deps := deps + [tok];
          continue;
        }
        if tok.kind == NEWLINE {
          return Ok(Parsed(Some(Dep(targets, colon, deps)), ts[i + 1..]));
        }
        return Err(SYNTAX);
    }
    if state == FIRST_TARGET {
      return Ok(Parsed(None, []));
    }
    return Err(SYNTAX);
  }

  // ---- all dependencies

  function ParseAll(ts: seq<Token>): Result<seq<Dep>>
    decreases |ts|
  {
    var p := ParseOne(ts);
    if p.Err? then Err(p.message)
    else if p.value.dep.None? then Ok([])
    else Onto([p.value.dep.value], ParseAll(p.value.rest))
  }

  /** `_parse_filtered_tokens` */
  method ParseFilteredTokens(ts: seq<Token>) returns (r: Result<seq<Dep>>)
    ensures r == ParseAll(ts)
  {
    var rest, deps := ts, [];
    OntoMore([], [], ParseAll(ts));
    while true
      invariant ParseAll(ts) == Onto(deps, ParseAll(rest))
      decreases |rest|
    {
      var p := ParseOneDep(rest);
      if p.Err? {
        return Err(p.message);
      }
      if p.value.dep.None? {
        OntoMore(deps, [], Ok([]));
        return Ok(deps);
      }
      OntoMore(deps, [p.value.dep.value], ParseAll(p.value.rest));
      deps := deps + [p.value.dep.value];
      rest := p.value.rest;
    }
  }

  predicate StartsWithDep(ts: seq<Token>, d: Dep) {
    && WellFormed(d)
    && |Spelling(d)| < |ts|
    && ts[..|Spelling(d)|] == Spelling(d)
    && ts[|Spelling(d)|].kind == NEWLINE
  }

  function AfterDep(ts: seq<Token>, d: Dep): seq<Token>
    requires StartsWithDep(ts, d)
  {
    ts[|Spelling(d)| + 1..]
  }

  /** The stream is the dependencies in order, each ended by a newline, with blank lines anywhere between. */
  predicate Spells(ts: seq<Token>, deps: seq<Dep>)
    decreases |ts|
  {
    if ts == [] then deps == []
    else if ts[0].kind == NEWLINE then Spells(ts[1..], deps)
    else deps != [] && StartsWithDep(ts, deps[0]) && Spells(AfterDep(ts, deps[0]), deps[1..])
  }

  lemma {:induction false} SpellsSkips(ts: seq<Token>, deps: seq<Dep>)
    ensures Spells(ts, deps) <==> Spells(SkipNewlines(ts), deps)
  {
    if ts != [] && ts[0].kind == NEWLINE { SpellsSkips(ts[1..], deps); }
  }

  lemma {:induction false} ParseSkips(ts: seq<Token>)
    requires ts != [] && ts[0].kind == NEWLINE
    ensures ParseAll(ts) == ParseAll(ts[1..])
  {
  }

  lemma {:induction false} ParseOneOfDep(ts: seq<Token>, d: Dep)
    requires StartsWithDep(ts, d)
    ensures ParseOne(ts) == Ok(Parsed(Some(d), AfterDep(ts, d)))
  {
    var n := |Spelling(d)|;
    var rest := ts[n..];
    assert ts == Spelling(d) + rest;
    assert rest[0] == ts[n] && rest[1..] == ts[n + 1..];
    ParseWholeDep(d, rest);
  }

  lemma {:induction false} ParseAllOfDep(ts: seq<Token>, d: Dep, more: seq<Dep>)
    requires StartsWithDep(ts, d) && ParseAll(AfterDep(ts, d)) == Ok(more)
    ensures ParseAll(ts) == Ok([d] + more)
  {
    ParseOneOfDep(ts, d);
  }

  /** A stream that spells dependencies parses to them ... */
  lemma {:induction false} SpelledParses(ts: seq<Token>, deps: seq<Dep>)
    requires Spells(ts, deps)
    ensures ParseAll(ts) == Ok(deps)
    decreases |ts|
  {
    if ts == [] {
    } else if ts[0].kind == NEWLINE {
      SpelledParses(ts[1..], deps);
      ParseSkips(ts);
    } else {
      SpelledParses(AfterDep(ts, deps[0]), deps[1..]);
      ParseAllOfDep(ts, deps[0], deps[1..]);
      assert deps == [deps[0]] + deps[1..];
    }
  }

  lemma {:induction false} ParsedSpells(s: seq<Token>, d: Dep, rest: seq<Token>)
    requires ParseDep(s) == Ok(Parsed(Some(d), rest))
    ensures StartsWithDep(s, d) && AfterDep(s, d) == rest
  {
  }

  lemma {:induction false} ParseNoneIsBlank(ts: seq<Token>)
    requires ParseOne(ts).Ok? && ParseOne(ts).value.dep.None?
    ensures SkipNewlines(ts) == []
  {
  }

  /** ... and only such a stream does: every path token is in exactly one dependency, in order. */
  lemma {:induction false} ParsedIsSpelled(ts: seq<Token>, deps: seq<Dep>)
    requires ParseAll(ts) == Ok(deps)
    ensures Spells(ts, deps)
    decreases |ts|
  {
    var p := ParseOne(ts).value;
    SpellsSkips(ts, deps);
    if p.dep.Some? {
      ParsedSpells(SkipNewlines(ts), p.dep.value, p.rest);
      ParsedIsSpelled(p.rest, deps[1..]);
    } else {
      ParseNoneIsBlank(ts);
    }
  }

  lemma ParseIffSpells(ts: seq<Token>, deps: seq<Dep>)
    ensures ParseAll(ts) == Ok(deps) <==> Spells(ts, deps)
  {
    if ParseAll(ts) == Ok(deps) { ParsedIsSpelled(ts, deps); }
    if Spells(ts, deps) { SpelledParses(ts, deps); }
  }

  // ---- texts

  /** `lex(lines)` */
  function LexLines(lines: seq<string>): Result<seq<Token>> {
    if lines == [] then Ok([])
    else
      var first :- Lex(lines[0]);
      var rest :- LexLines(lines[1..]);
      Ok(first + rest)
  }

  /** The lines of an open file, each with its newline. */
  function FileLines(text: string): seq<string>
    decreases |text|
  {
    if text == "" then []
    else
      var i := Span(text, NotNewline);
      if i == |text| then [text] else [text[..i + 1]] + FileLines(text[i + 1..])
  }

  function ParseLines(lines: seq<string>): Result<seq<Dep>> {
    var ts :- LexLines(lines);
    ParseAll(Significant(ts))
  }

  lemma {:induction false} SpanOfLine(line: string, rest: string, p: char -> bool)
    requires line != "" && !p(line[|line| - 1])
    ensures Span(line + rest, p) == Span(line, p) && (line + rest)[..Span(line, p)] == line[..Span(line, p)]
  {
    var n := Span(line, p);
    SpanOfAll(line[..n], line[n..] + rest, p);
    assert line[..n] + (line[n..] + rest) == line + rest;
    assert (line[n..] + rest)[0] == line[n];
  }

  lemma {:induction false} NewlineOfLine(line: string, rest: string)
    requires line != "" && line[|line| - 1] == '\n'
    ensures NewlineLen(line + rest) == NewlineLen(line) && (line + rest)[..NewlineLen(line)] == line[..NewlineLen(line)]
  {
  }

  /** The lexer never looks past the end of a line that has its newline. */
  lemma {:induction false} FirstTokenOfLine(line: string, rest: string)
    requires line != "" && line[|line| - 1] == '\n'
    ensures FirstToken(line + rest) == FirstToken(line)
  {
    var s := line + rest;
    assert s[0] == line[0] && s[..1] == line[..1];
    if line[0] == '\\' {
      assert s[1..] == line[1..] + rest;
      NewlineOfLine(line[1..], rest);
    } else {
      NewlineOfLine(line, rest);
      SpanOfLine(line, rest, IsBlank);
      SpanOfLine(line, rest, NotNewline);
      SpanOfLine(line, rest, IsPathChar);
    }
  }

  lemma {:induction false} LexCons(s: string, t: Token, rest: string)
    requires s != "" && FirstToken(s) == Ok(t) && s[|t.text|..] == rest
    ensures Lex(s) == Onto([t], Lex(rest))
  {
  }

  /** A cut that both halves can be lexed across. */
  predicate LexesAcross(line: string, rest: string) {
    if Lex(line).Ok? then Lex(line + rest) == Onto(Lex(line).value, Lex(rest)) else Lex(line + rest).Err?
  }

  lemma {:induction false} LexesAcrossStep(line: string, rest: string, t: Token, line2: string)
    requires line != "" && line + rest != "" && FirstToken(line) == FirstToken(line + rest) == Ok(t)
    requires line2 == line[|t.text|..] && LexesAcross(line2, rest)
    ensures LexesAcross(line, rest)
  {
    LexCons(line, t, line2);
    assert (line + rest)[|t.text|..] == line2 + rest;
    LexCons(line + rest, t, line2 + rest);
    if Lex(line2).Ok? { OntoMore([t], Lex(line2).value, Lex(rest)); }
  }

  lemma {:induction false} LexAfterLine(line: string, rest: string)
    requires line == "" || line[|line| - 1] == '\n'
    ensures LexesAcross(line, rest)
    decreases |line|
  {
    if line == "" {
      assert line + rest == rest;
      OntoMore([], [], Lex(rest));
    } else {
      FirstTokenOfLine(line, rest);
      var first := FirstToken(line);
      if first.Ok? {
        var line2 := line[|first.value.text|..];
        LexAfterLine(line2, rest);
        LexesAcrossStep(line, rest, first.value, line2);
      }
    }
  }

  lemma {:induction false} LexLinesCons(line: string, lines: seq<string>)
    ensures Lex(line).Ok? ==> LexLines([line] + lines) == Onto(Lex(line).value, LexLines(lines))
    ensures Lex(line).Err? ==> LexLines([line] + lines).Err?
  {
  }

  /** Lexing a file line by line is lexing its text. */
  lemma {:induction false} LinesLexLikeText(text: string)
    ensures LexLines(FileLines(text)).Ok? <==> Lex(text).Ok?
    ensures Lex(text).Ok? ==> LexLines(FileLines(text)) == Lex(text)
    decreases |text|
  {
    if text != "" {
      var i := Span(text, NotNewline);
      if i == |text| {
        LexLinesCons(text, []);
        assert [text] + [] == [text];
        if Lex(text).Ok? { OntoMore(Lex(text).value, [], Lex(text)); }
      } else {
        var line, rest := text[..i + 1], text[i + 1..];
        assert text == line + rest;
        LexAfterLine(line, rest);
        LinesLexLikeText(rest);
        LexLinesCons(line, FileLines(rest));
      }
    }
  }

  /** A file parses to these dependencies exactly when its text lexes and what is significant in it spells them. */
  lemma FileParsesExactly(text: string, deps: seq<Dep>)
    ensures ParseLines(FileLines(text)) == Ok(deps) <==>
            Lex(text).Ok? && Spells(Significant(Lex(text).value), deps)
  {
    LinesLexLikeText(text);
    if Lex(text).Ok? { ParseIffSpells(Significant(Lex(text).value), deps); }
  }

  // ---- layouts

  /** Tokens that may stand between any two others without changing the meaning: spaces, comments and
      continued lines. */
  predicate IsGap(g: seq<Token>) {
    || g == []
    || ((g[0].kind == SPACE || g[0].kind == COMMENT) && IsGap(g[1..]))
    || (|g| >= 2 && g[0].kind == LINECONTINUE && g[1].kind == NEWLINE && IsGap(g[2..]))
  }

  lemma {:induction false} GapVanishes(g: seq<Token>, rest: seq<Token>)
    requires IsGap(g)
    ensures Significant(g + rest) == Significant(rest)
    decreases |g|
  {
    if g == [] {
      assert g + rest == rest;
    } else if g[0].kind == SPACE || g[0].kind == COMMENT {
      GapVanishes(g[1..], rest);
      assert (g + rest)[1..] == g[1..] + rest;
    } else {
      GapVanishes(g[2..], rest);
      var s := g + rest;
      assert s[1..][0] == g[1] && s[1..][1..] == g[2..] + rest;
      assert Consume(s, false) == Consume(s[1..], true) == Consume(s[1..][1..], false);
    }
  }

  /** The items with a gap before each and one after the last. */
  function Spread(items: seq<Token>, gaps: seq<seq<Token>>): seq<Token>
    requires |gaps| == |items| + 1
  {
    if items == [] then gaps[0] else gaps[0] + ([items[0]] + Spread(items[1..], gaps[1..]))
  }

  predicate IsItem(t: Token) {
    t.kind == PATH || t.kind == COLON || t.kind == NEWLINE
  }

  lemma {:induction false} SpreadSignificant(items: seq<Token>, gaps: seq<seq<Token>>)
    requires |gaps| == |items| + 1
    requires forall g :: g in gaps ==> IsGap(g)
    requires forall t :: t in items ==> IsItem(t)
    ensures Significant(Spread(items, gaps)) == items
  {
    if items == [] {
      GapVanishes(gaps[0], []);
      assert gaps[0] + [] == gaps[0];
    } else {
      var rest := Spread(items[1..], gaps[1..]);
      SpreadSignificant(items[1..], gaps[1..]);
      GapVanishes(gaps[0], [items[0]] + rest);
      assert items[0] in items;
      assert ([items[0]] + rest)[1..] == rest;
      assert items == [items[0]] + items[1..];
    }
  }

  lemma {:induction false} SpelledItems(items: seq<Token>, deps: seq<Dep>)
    requires Spells(items, deps)
    ensures forall t :: t in items ==> IsItem(t)
    decreases |items|
  {
    if items != [] && items[0].kind != NEWLINE {
      var d := deps[0];
      var n := |Spelling(d)|;
      SpelledItems(AfterDep(items, d), deps[1..]);
      assert items == Spelling(d) + [items[n]] + AfterDep(items, d);
    } else if items != [] {
      SpelledItems(items[1..], deps);
      assert items == [items[0]] + items[1..];
    }
  }

  /** However dependencies are laid out, with spacing, comments and continued lines between any two tokens
      and blank lines between dependencies, the file parses back to them. The layout must only not run
      two tokens into one. */
  lemma {:induction false} AnyLayoutParses(deps: seq<Dep>, items: seq<Token>, gaps: seq<seq<Token>>)
    requires Spells(items, deps)
    requires |gaps| == |items| + 1 && forall g :: g in gaps ==> IsGap(g)
    requires Munched(Spread(items, gaps))
    ensures ParseLines(FileLines(Unlex(Spread(items, gaps)))) == Ok(deps)
  {
    MunchedLexes(Spread(items, gaps));
    SpelledItems(items, deps);
    SpreadSignificant(items, gaps);
    FileParsesExactly(Unlex(Spread(items, gaps)), deps);
  }

  // ---- a layout that always works: a space between any two tokens

  const BLANK := Token(" ", SPACE)
  const EOL := Token("\n", NEWLINE)

  function PlainItems(deps: seq<Dep>): seq<Token> {
    if deps == [] then [] else Spelling(deps[0]) + [EOL] + PlainItems(deps[1..])
  }

  predicate Printable(d: Dep) {
    WellFormed(d) && d.colon.text == ":" && forall t :: t in d.targets + d.deps ==> IsPathText(t.text)
  }

  function Blanks(n: nat): (gaps: seq<seq<Token>>)
    ensures |gaps| == n && forall i :: 0 <= i < n ==> gaps[i] == [BLANK]
  {
    seq(n, i => [BLANK])
  }

  function Print(deps: seq<Dep>): string {
    var items := PlainItems(deps);
    Unlex(Spread(items, Blanks(|items| + 1)))
  }

  predicate WellItem(t: Token) {
    (t.kind == PATH && IsPathText(t.text)) || t == Token(":", COLON) || t == EOL
  }

  lemma {:induction false} PlainSpells(deps: seq<Dep>)
    requires forall d :: d in deps ==> Printable(d)
    ensures Spells(PlainItems(deps), deps)
    ensures forall t :: t in PlainItems(deps) ==> WellItem(t)
  {
    if deps != [] {
      var d, ts, more := deps[0], PlainItems(deps), PlainItems(deps[1..]);
      PlainSpells(deps[1..]);
      assert d in deps && WellFormed(d);
      assert ts[..|Spelling(d)|] == Spelling(d) && ts[|Spelling(d)| + 1..] == more;
      assert ts[0] == d.targets[0];
      assert StartsWithDep(ts, d) && AfterDep(ts, d) == more;
      SpellingWell(d);
    }
  }

  lemma {:induction false} SpellingWell(d: Dep)
    requires Printable(d)
    ensures forall t :: t in Spelling(d) ==> WellItem(t)
  {
  }

  lemma {:induction false} SpacedMunched(items: seq<Token>, gaps: seq<seq<Token>>)
    requires forall t :: t in items ==> WellItem(t)
    requires |gaps| == |items| + 1 && forall i :: 0 <= i < |gaps| ==> gaps[i] == [BLANK]
    ensures Munched(Spread(items, gaps))
    ensures var u := Unlex(Spread(items, gaps)); u != "" && u[0] == ' '
  {
    var ts := Spread(items, gaps);
    if items == [] {
      assert ts == [BLANK];
      assert ts[1..] == [];
    } else {
      var rest := Spread(items[1..], gaps[1..]);
      SpacedMunched(items[1..], gaps[1..]);
      var t := items[0];
      assert t in items;
      assert ts == [BLANK] + ([t] + rest);
      assert ts[1..] == [t] + rest && ts[1..][1..] == rest;
      assert Fits(t, Unlex(rest));
      assert Unlex([t] + rest)[0] == t.text[0];
      assert t.kind == PATH ==> t.text[0] in t.text;
    }
  }

  lemma {:induction false} BlanksAreGaps(n: nat)
    ensures forall g :: g in Blanks(n) ==> IsGap(g)
  {
  }

  /** Printing any dependencies and parsing the file gives them back. */
  lemma {:induction false} PrintedParses(deps: seq<Dep>)
    requires forall d :: d in deps ==> Printable(d)
    ensures ParseLines(FileLines(Print(deps))) == Ok(deps)
  {
    var items := PlainItems(deps);
    var gaps := Blanks(|items| + 1);
    PlainSpells(deps);
    SpacedMunched(items, gaps);
    BlanksAreGaps(|items| + 1);
    AnyLayoutParses(deps, items, gaps);
  }
}
