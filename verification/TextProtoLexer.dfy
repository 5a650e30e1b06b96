/** Cutting lines of text proto into tokens. */
module TextProtoLexer {
  import opened Text

  datatype Kind = FieldName | StartBlock | EndBlock | StringValue | OtherValue | Space | Newline

  datatype Token = Token(text: string, kind: Kind)

  // ---- what the regular expressions match

  predicate Letter(c: char) {
    'a' <= c <= 'z' || 'A' <= c <= 'Z' || c == '_'
  }

  predicate NameChar(c: char) {
    Letter(c) || '0' <= c <= '9'
  }

  predicate Blank(c: char) {
    c == ' ' || c == '\t'
  }

  predicate White(c: char) {
    Blank(c) || c == '\r' || c == '\n'
  }

  predicate Opens(c: char) {
    c == '<' || c == '{'
  }

  predicate Closes(c: char) {
    c == '>' || c == '}'
  }

  /** The length of the field name, with its colon, that s starts with; 0 for none. */
  function FieldLength(s: string): (n: nat)
    ensures n <= |s|
  {
    var n := Span(s, NameChar);
    if s != [] && Letter(s[0]) && n < |s| && s[n] == ':' then n + 1 else 0
  }

  /** From inside a string: the length up to and with its closing quote; 0 for none. */
  function StringTail(s: string): (n: nat)
    ensures n <= |s|
  {
    if s == [] then 0
    else if s[0] == '"' then 1
    else if s[0] == '\\' then
      if |s| < 2 || s[1] == '\n' then 0
      else
        var n := StringTail(s[2..]);
        if n == 0 then 0 else n + 2
    else
      var n := StringTail(s[1..]);
      if n == 0 then 0 else n + 1
  }

  /** The length of the quoted string that s starts with; 0 for none. */
  function StringLength(s: string): (n: nat)
    ensures n <= |s|
  {
    if s == [] || s[0] != '"' || StringTail(s[1..]) == 0 then 0 else 1 + StringTail(s[1..])
  }

  predicate NotWhite(c: char) {
    !White(c)
  }

  /** The kind and length of the token s starts with: the first rule that matches decides. */
  function Match(s: string): (r: Option<(Kind, nat)>)
    requires s != []
    ensures r.Some? ==> 0 < r.value.1 <= |s|
  {
    if Opens(s[0]) then Some((StartBlock, 1))
    else if Closes(s[0]) then Some((EndBlock, 1))
    else if FieldLength(s) > 0 then Some((FieldName, FieldLength(s)))
    else if StringLength(s) > 0 then Some((StringValue, StringLength(s)))
    else if Span(s, NotWhite) > 0 then Some((OtherValue, Span(s, NotWhite)))
    else if Span(s, Blank) > 0 then Some((Space, Span(s, Blank)))
    else if s[0] == '\n' then Some((Newline, 1))
    else if |s| > 1 && s[1] == '\n' then Some((Newline, 2))
    else None
  }

  /** The tokens of a line, or an error where no rule matches. */
  function Lex(s: string): Result<seq<Token>> {
    if s == [] then Ok([])
    else
      var m := Match(s);
      if m.None? then Err("unrecognized text")
      else Onto([Token(s[..m.value.1], m.value.0)], Lex(s[m.value.1..]))
  }

  method LexLine(text: string) returns (r: Result<seq<Token>>)
    ensures r == Lex(text)
  {
    var line := text;
    var tokens: seq<Token> := [];
    OntoMore([], [], Lex(text));
    while line != []
      invariant Lex(text) == Onto(tokens, Lex(line))
      decreases |line|
    {
      var m := Match(line);
      if m.None? { return Err("unrecognized text"); }
      var t := Token(line[..m.value.1], m.value.0);
      OntoMore(tokens, [t], Lex(line[m.value.1..]));
      tokens := tokens + [t];
      line := line[m.value.1..];
    }
    OntoMore(tokens, [], Ok([]));
    r := Ok(tokens);
  }

  // ---- lexing and printing

  function Unlex(ts: seq<Token>): string {
    if ts == [] then [] else ts[0].text + Unlex(ts[1..])
  }

  /** The tokens of a line are the line, cut up. */
  lemma {:induction false} UnlexUndoesLex(s: string)
    ensures Lex(s).Ok? ==> Unlex(Lex(s).value) == s
    decreases |s|
  {
    if Lex(s).Ok? && s != [] {
      var n := Match(s).value.1;
      UnlexUndoesLex(s[n..]);
      assert s == s[..n] + s[n..];
      assert Lex(s).value[1..] == Lex(s[n..]).value;
    }
  }

  /** The text of a token of its kind. */
  predicate Proper(t: Token) {
    t.text != [] &&
    match t.kind
    case StartBlock => |t.text| == 1 && Opens(t.text[0])
    case EndBlock => |t.text| == 1 && Closes(t.text[0])
    case FieldName => FieldLength(t.text) == |t.text|
    case StringValue => StringLength(t.text) == |t.text|
    case OtherValue =>
      Span(t.text, NotWhite) == |t.text| && !Opens(t.text[0]) && !Closes(t.text[0]) && FieldLength(t.text) == 0
    case Space => Span(t.text, Blank) == |t.text|
    case Newline => t.text == "\n" || t.text == "\r\n"
  }

  /** The text after a token ends it: an unquoted value needs white space next, and no later quotation mark may make a
      string of it; blanks need something else next. */
  predicate EndsHere(t: Token, rest: string) {
    && (t.kind == OtherValue ==> (rest == [] || White(rest[0])) && StringLength(t.text + rest) == 0)
    && (t.kind == Space ==> rest == [] || !Blank(rest[0]))
  }

  lemma {:induction false} SpanStops(s: string, rest: string, accepts: char -> bool)
    requires rest == [] || !accepts(rest[0]) || Span(s, accepts) < |s|
    ensures Span(s + rest, accepts) == Span(s, accepts)
  {
    if s == [] {
      assert s + rest == rest;
    } else if accepts(s[0]) {
      assert (s + rest)[1..] == s[1..] + rest;
      SpanStops(s[1..], rest, accepts);
    }
  }

  lemma {:induction false} StringTailStops(s: string, rest: string)
    requires StringTail(s) > 0
    ensures StringTail(s + rest) == StringTail(s)
    decreases |s|
  {
    if s[0] == '"' {
    } else if s[0] == '\\' {
      assert (s + rest)[2..] == s[2..] + rest;
      StringTailStops(s[2..], rest);
    } else {
      assert (s + rest)[1..] == s[1..] + rest;
      StringTailStops(s[1..], rest);
    }
  }

  lemma {:induction false} FieldMatches(s: string, rest: string)
    requires s != [] && FieldLength(s) == |s|
    ensures Match(s + rest) == Some((FieldName, |s|))
  {
    SpanStops(s, rest, NameChar);
  }

  lemma {:induction false} StringMatches(s: string, rest: string)
    requires s != [] && StringLength(s) == |s|
    ensures Match(s + rest) == Some((StringValue, |s|))
  {
    assert (s + rest)[1..] == s[1..] + rest;
    StringTailStops(s[1..], rest);
  }

  lemma {:induction false} ValueMatches(s: string, rest: string)
    requires Proper(Token(s, OtherValue)) && EndsHere(Token(s, OtherValue), rest)
    ensures Match(s + rest) == Some((OtherValue, |s|))
  {
    SpanStops(s, rest, NotWhite);
    SpanStops(s, rest, NameChar);
  }

  lemma {:induction false} BlankMatches(s: string, rest: string)
    requires Proper(Token(s, Space)) && EndsHere(Token(s, Space), rest)
    ensures Match(s + rest) == Some((Space, |s|))
  {
    SpanStops(s, rest, Blank);
  }

  lemma {:induction false} ProperMatches(t: Token, rest: string)
    requires Proper(t) && EndsHere(t, rest)
    ensures Match(t.text + rest) == Some((t.kind, |t.text|))
  {
    match t.kind
    case StartBlock =>
    case EndBlock =>
    case FieldName => FieldMatches(t.text, rest);
    case StringValue => StringMatches(t.text, rest);
    case OtherValue => ValueMatches(t.text, rest);
    case Space => BlankMatches(t.text, rest);
    case Newline =>
      assert (t.text + rest)[0] == t.text[0];
      assert |t.text| == 2 ==> (t.text + rest)[1] == '\n';
  }

  /** Tokens that can stand next to each other. */
  predicate Apart(ts: seq<Token>) {
    ts == [] || (Proper(ts[0]) && EndsHere(ts[0], Unlex(ts[1..])) && Apart(ts[1..]))
  }

  lemma {:induction false} LexUndoesUnlex(ts: seq<Token>)
    requires Apart(ts)
    ensures Lex(Unlex(ts)) == Ok(ts)
  {
    if ts != [] {
      var t, rest := ts[0], Unlex(ts[1..]);
      ProperMatches(t, rest);
      assert (t.text + rest)[..|t.text|] == t.text && (t.text + rest)[|t.text|..] == rest;
      LexUndoesUnlex(ts[1..]);
      assert ts == [t] + ts[1..];
    }
  }

  lemma {:induction false} SpanOfPrefix(s: string, n: nat, accepts: char -> bool)
    requires n <= |s|
    ensures Span(s[..n], accepts) == if Span(s, accepts) < n then Span(s, accepts) else n
  {
    if n > 0 && accepts(s[0]) {
      assert s[..n][1..] == s[1..][..n - 1];
      SpanOfPrefix(s[1..], n - 1, accepts);
    }
  }

  lemma {:induction false} StringTailOfPrefix(s: string)
    requires StringTail(s) > 0
    ensures StringTail(s[..StringTail(s)]) == StringTail(s)
    decreases |s|
  {
    var n := StringTail(s);
    if s[0] == '"' {
    } else if s[0] == '\\' {
      assert s[..n][2..] == s[2..][..n - 2];
      StringTailOfPrefix(s[2..]);
    } else {
      assert s[..n][1..] == s[1..][..n - 1];
      StringTailOfPrefix(s[1..]);
    }
  }

  lemma {:induction false} FieldOfPrefix(s: string, n: nat)
    requires 0 < n <= |s|
    ensures FieldLength(s) == n ==> FieldLength(s[..n]) == n
    ensures FieldLength(s) == 0 ==> FieldLength(s[..n]) == 0
  {
    SpanOfPrefix(s, n, NameChar);
  }

  lemma {:induction false} StringOfPrefix(s: string)
    requires StringLength(s) > 0
    ensures StringLength(s[..StringLength(s)]) == StringLength(s)
  {
    var n := StringLength(s);
    assert s[..n][1..] == s[1..][..n - 1];
    StringTailOfPrefix(s[1..]);
  }

  /** What a rule matches is a proper token, ended by what follows. */
  lemma {:induction false} MatchIsProper(s: string)
    requires s != [] && Match(s).Some?
    ensures var t, n := Token(s[..Match(s).value.1], Match(s).value.0), Match(s).value.1;
            Proper(t) && EndsHere(t, s[n..])
  {
    var k, n := Match(s).value.0, Match(s).value.1;
    assert s[..n] + s[n..] == s;
    match k
    case StartBlock =>
    case EndBlock =>
    case FieldName => FieldOfPrefix(s, n);
    case StringValue => StringOfPrefix(s);
    case OtherValue => { SpanOfPrefix(s, n, NotWhite); FieldOfPrefix(s, n); }
    case Space => SpanOfPrefix(s, n, Blank);
    case Newline => assert n == 2 ==> s[..2] == [s[0], s[1]];
  }

  lemma {:induction false} LexedIsApart(s: string)
    requires Lex(s).Ok?
    ensures Apart(Lex(s).value)
    decreases |s|
  {
    if s != [] {
      var n := Match(s).value.1;
      MatchIsProper(s);
      LexedIsApart(s[n..]);
      UnlexUndoesLex(s[n..]);
      assert Lex(s).value[1..] == Lex(s[n..]).value;
    }
  }

  /** Tokens printed as one line lex to themselves exactly when they are proper and apart. */
  lemma {:induction false} LexUndoesUnlexIff(ts: seq<Token>)
    ensures Lex(Unlex(ts)) == Ok(ts) <==> Apart(ts)
  {
    if Apart(ts) { LexUndoesUnlex(ts); }
    if Lex(Unlex(ts)) == Ok(ts) { LexedIsApart(Unlex(ts)); }
  }

  // ---- the significant tokens

  predicate Significant(t: Token) {
    t.kind != Space && t.kind != Newline
  }

  function Significants(ts: seq<Token>): seq<Token> {
    if ts == [] then [] else (if Significant(ts[0]) then [ts[0]] else []) + Significants(ts[1..])
  }

  /** Tokens one blank apart. */
  function Spaced(ts: seq<Token>): seq<Token> {
    if ts == [] then [] else [ts[0]] + ([BLANK] + Spaced(ts[1..]))
  }

  const BLANK := Token(" ", Space)

  /** A token that can be printed anywhere: a value does not begin with a quotation mark. */
  predicate Printable(t: Token) {
    Proper(t) && Significant(t) && (t.kind == OtherValue ==> t.text[0] != '"')
  }

  lemma {:induction false} FirstIsNotBlank(t: Token)
    requires Printable(t)
    ensures !Blank(t.text[0])
  {
  }

  lemma {:induction false} ApartMore(t: Token, ts: seq<Token>)
    requires Proper(t) && EndsHere(t, Unlex(ts)) && Apart(ts)
    ensures Apart([t] + ts) && Unlex([t] + ts) == t.text + Unlex(ts)
  {
    assert ([t] + ts)[1..] == ts;
  }

  /** Every list of printable tokens can be printed. */
  lemma {:induction false} SpacedIsApart(ts: seq<Token>)
    requires forall t :: t in ts ==> Printable(t)
    ensures Apart(Spaced(ts))
    ensures ts != [] ==> Unlex(Spaced(ts)) != [] && !Blank(Unlex(Spaced(ts))[0])
  {
    if ts != [] {
      var t, rest := ts[0], Spaced(ts[1..]);
      SpacedIsApart(ts[1..]);
      assert Span(" ", Blank) == 1;
      ApartMore(BLANK, rest);
      FirstIsNotBlank(t);
      ApartMore(t, [BLANK] + rest);
    }
  }

  lemma SignificantsMore(t: Token, ts: seq<Token>)
    ensures Significants([t] + ts) == (if Significant(t) then [t] else []) + Significants(ts)
  {
    assert ([t] + ts)[1..] == ts;
  }

  lemma {:induction false} SpacedSignificants(ts: seq<Token>)
    requires forall t :: t in ts ==> Significant(t)
    ensures Significants(Spaced(ts)) == ts
  {
    if ts != [] {
      SpacedSignificants(ts[1..]);
      SignificantsMore(BLANK, Spaced(ts[1..]));
      SignificantsMore(ts[0], [BLANK] + Spaced(ts[1..]));
      assert ts == [ts[0]] + ts[1..];
    }
  }
}
