/** Depfile text as tokens: lexing, printing the tokens back, and rewriting the paths. */
module DepfileLexer {
  import opened Text

  datatype Kind = PATH | COLON | SPACE | NEWLINE | LINECONTINUE | COMMENT

  datatype Token = Token(text: string, kind: Kind)

  // ---- the lexer's regular expressions

  predicate IsBlank(c: char) {
    c == ' ' || c == '\t'
  }

  predicate IsPathChar(c: char) {
    'a' <= c <= 'z' || 'A' <= c <= 'Z' || '0' <= c <= '9' ||
    c == '_' || c == '/' || c == '.' || c == '+' || c == '-'
  }

  predicate NotNewline(c: char) {
    c != '\n'
  }

  lemma {:induction false} SpanOfAll(a: string, b: string, p: char -> bool)
    requires forall k :: 0 <= k < |a| ==> p(a[k])
    requires b == "" || !p(b[0])
    ensures Span(a + b, p) == |a|
  {
    var s := a + b;
    assert forall k :: 0 <= k < |a| ==> s[k] == a[k];
    assert b != "" ==> s[|a|] == b[0];
  }

  /** The length of a match of "\r?\n" at the start, or 0. */
  function NewlineLen(s: string): nat {
    if StartsWith(s, "\n") then 1 else if StartsWith(s, "\r\n") then 2 else 0
  }

  // ---- what the lexer computes

  /** The first token of a non-empty line. A backslash must be followed by a newline or by nothing. */
  function FirstToken(line: string): (r: Result<Token>)
    requires line != ""
    ensures r.Ok? ==> r.value.text != "" && r.value.text <= line
  {
    var c := line[0];
    if c == ':' then Ok(Token(line[..1], COLON))
    else if c == '\\' then
      if |line| == 1 || NewlineLen(line[1..]) > 0 then Ok(Token(line[..1], LINECONTINUE))
      else Err("escape sequence")
    else if IsBlank(c) then Ok(Token(line[..Span(line, IsBlank)], SPACE))
    else if NewlineLen(line) > 0 then Ok(Token(line[..NewlineLen(line)], NEWLINE))
    else if c == '#' then Ok(Token(line[..Span(line, NotNewline)], COMMENT))
    else if IsPathChar(c) then Ok(Token(line[..Span(line, IsPathChar)], PATH))
    else Err("unrecognized text")
  }

  function Lex(line: string): Result<seq<Token>>
    decreases |line|
  {
    if line == "" then Ok([])
    else
      var t :- FirstToken(line);
      var ts :- Lex(line[|t.text|..]);
      Ok([t] + ts)
  }

  function Unlex(ts: seq<Token>): string {
    if ts == [] then "" else ts[0].text + Unlex(ts[1..])
  }

  lemma {:induction false} UnlexAppend(a: seq<Token>, b: seq<Token>)
    ensures Unlex(a + b) == Unlex(a) + Unlex(b)
  {
    if a == [] {
      assert a + b == b;
    } else {
      assert (a + b)[1..] == a[1..] + b;
      UnlexAppend(a[1..], b);
    }
  }

  // ---- the lexer as it runs

  lemma LexStep(tokens: seq<Token>, line: string, t: Token)
    requires line != "" && FirstToken(line) == Ok(t)
    ensures Onto(tokens, Lex(line)) == Onto(tokens + [t], Lex(line[|t.text|..]))
  {
    assert Lex(line) == Onto([t], Lex(line[|t.text|..]));
    OntoMore(tokens, [t], Lex(line[|t.text|..]));
  }

  /** A backslash already read, in front of what is left of the line. */
  function Held(prev: bool, line: string): string {
    if prev then "\\" + line else line
  }

  /** The part of the lexer's loop that sees no backslash. */
  method PlainToken(line: string) returns (r: Result<Token>)
    requires line != "" && line[0] != '\\'
    ensures r == FirstToken(line)
  {
    var c := line[0];
    if c == ':' {
      assert line[..1] == [c];
      return Ok(Token([c], COLON));
    }
    if IsBlank(c) {
      return Ok(Token(line[..Span(line, IsBlank)], SPACE));
    }
    var newline := NewlineLen(line);
    if newline > 0 {
      return Ok(Token(line[..newline], NEWLINE));
    }
    if c == '#' {
      return Ok(Token(line[..Span(line, NotNewline)], COMMENT));
    }
    if IsPathChar(c) {
      return Ok(Token(line[..Span(line, IsPathChar)], PATH));
    }
    return Err("unrecognized text");
  }

  lemma LexHeld(tokens: seq<Token>, line: string)
    ensures line == "" ==> Onto(tokens, Lex(Held(true, line))) == Ok(tokens + [CONTINUE])
    ensures line != "" && NewlineLen(line) == 0 ==> Lex(Held(true, line)) == Err("escape sequence")
    ensures NewlineLen(line) > 0 ==>
              Onto(tokens, Lex(Held(true, line))) ==
              Onto(tokens + [CONTINUE] + [Token(line[..NewlineLen(line)], NEWLINE)], Lex(line[NewlineLen(line)..]))
  {
    var held := Held(true, line);
    assert held[..1] == "\\" && held[1..] == line;
    OntoMore(tokens + [CONTINUE], [], Lex(line));
    if line == "" || NewlineLen(line) > 0 { LexStep(tokens, held, CONTINUE); }
    if NewlineLen(line) > 0 { LexStep(tokens + [CONTINUE], line, Token(line[..NewlineLen(line)], NEWLINE)); }
  }

  const CONTINUE := Token("\\", LINECONTINUE)

  /** `_lex_line`: a backslash is held back until the text after it has been seen. */
  method LexLine(input: string) returns (r: Result<seq<Token>>)
    ensures r == Lex(input)
  {
    var line, prev, tokens := input, false, [];
    OntoMore([], [], Lex(input));
    while line != ""
      invariant Lex(input) == Onto(tokens, Lex(Held(prev, line)))
      decreases |line|
    {
      if prev {
        LexHeld(tokens, line);
        var newline := NewlineLen(line);
        if newline > 0 {
          tokens := tokens + [CONTINUE];
          prev := false;
          tokens := tokens + [Token(line[..newline], NEWLINE)];
          line := line[newline..];
          continue;
        }
        return Err("escape sequence");
      }
      if line[0] == '\\' {
        assert Held(true, line[1..]) == line;
        prev := true;
        line := line[1..];
        continue;
      }
      var token := PlainToken(line);
      if token.Err? {
        return Err(token.message);
      }
      LexStep(tokens, line, token.value);
      tokens := tokens + [token.value];
      line := line[|token.value.text|..];
    }
    OntoMore(tokens, [], Lex(line));
    if prev {
      LexHeld(tokens, line);
      tokens := tokens + [CONTINUE];
    }
    return Ok(tokens);
  }

  // ---- printing undoes lexing

  /** Nothing is lost: the tokens' texts put together are the line. */
  lemma {:induction false} UnlexUndoesLex(line: string)
    ensures Lex(line).Ok? ==> Unlex(Lex(line).value) == line
    decreases |line|
  {
    if line != "" && Lex(line).Ok? {
      var t := FirstToken(line).value;
      UnlexUndoesLex(line[|t.text|..]);
      var ts := Lex(line).value;
      assert ts[1..] == Lex(line[|t.text|..]).value;
    }
  }

  // ---- which token sequences lex back to themselves

  predicate IsPathText(s: string) {
    s != "" && forall c :: c in s ==> IsPathChar(c)
  }

  /** A token's text suits its kind, and the text after it does not run on into it. */
  predicate Fits(t: Token, rest: string) {
    match t.kind
    case COLON => t.text == ":"
    case LINECONTINUE => t.text == "\\" && (rest == "" || NewlineLen(rest) > 0)
    case SPACE => t.text != "" && (forall c :: c in t.text ==> IsBlank(c)) && (rest == "" || !IsBlank(rest[0]))
    case NEWLINE => t.text == "\n" || t.text == "\r\n"
    case COMMENT =>
      t.text != "" && t.text[0] == '#' && '\n' !in t.text && (rest == "" || rest[0] == '\n')
    case PATH => IsPathText(t.text) && (rest == "" || !IsPathChar(rest[0]))
  }

  lemma {:induction false} FitsLexes(t: Token, rest: string)
    requires Fits(t, rest)
    ensures FirstToken(t.text + rest) == Ok(t)
  {
    var line := t.text + rest;
    assert line[0] == t.text[0] && line[..|t.text|] == t.text;
    match t.kind
    case COLON =>
    case LINECONTINUE => assert line[1..] == rest;
    case SPACE => SpanOfAll(t.text, rest, IsBlank);
    case NEWLINE =>
      assert t.text == "\n" ==> line[..1] == "\n";
      assert t.text == "\r\n" ==> line[..2] == "\r\n" && line[..1] == "\r";
    case COMMENT => SpanOfAll(t.text, rest, NotNewline);
    case PATH => SpanOfAll(t.text, rest, IsPathChar);
  }

  lemma {:induction false} LexedFits(line: string)
    requires line != "" && FirstToken(line).Ok?
    ensures var t := FirstToken(line).value; Fits(t, line[|t.text|..])
  {
  }

  /** Every token fits the text of those after it. */
  predicate Munched(ts: seq<Token>) {
    ts != [] ==> Fits(ts[0], Unlex(ts[1..])) && Munched(ts[1..])
  }

  lemma {:induction false} LexIsMunched(line: string)
    requires Lex(line).Ok?
    ensures Munched(Lex(line).value) && Unlex(Lex(line).value) == line
    decreases |line|
  {
    UnlexUndoesLex(line);
    if line != "" {
      var t := FirstToken(line).value;
      LexIsMunched(line[|t.text|..]);
      LexedFits(line);
      assert Lex(line).value[1..] == Lex(line[|t.text|..]).value;
    }
  }

  lemma {:induction false} MunchedLexes(ts: seq<Token>)
    requires Munched(ts)
    ensures Lex(Unlex(ts)) == Ok(ts)
  {
    if ts != [] {
      MunchedLexes(ts[1..]);
      var t, rest := ts[0], Unlex(ts[1..]);
      FitsLexes(t, rest);
      assert (t.text + rest)[|t.text|..] == rest;
      assert t.text + rest != "";
      assert ts == [t] + ts[1..];
    }
  }

  // ---- rewriting paths

  function MapPaths(ts: seq<Token>, f: string -> string): (r: seq<Token>)
    ensures |r| == |ts|
  {
    if ts == [] then []
    else
      [if ts[0].kind == PATH then Token(f(ts[0].text), PATH) else ts[0]] + MapPaths(ts[1..], f)
  }

  /** f takes path lexemes to path lexemes. */
  ghost predicate KeepsPaths(f: string -> string) {
    forall x :: IsPathText(x) ==> IsPathText(f(x))
  }

  /** The same for a lexer looking ahead: a path may have become another path, anything else is unchanged. */
  predicate SameStart(a: string, b: string) {
    && (a == "" <==> b == "")
    && (a != "" ==> (IsPathChar(a[0]) && IsPathChar(b[0])) || a[0] == b[0])
    && NewlineLen(a) == NewlineLen(b)
  }

  lemma {:induction false} SameStartAfter(t: Token, next: string, a: string, b: string)
    requires Fits(t, next) && t.kind != PATH
    ensures SameStart(t.text + a, t.text + b)
  {
    var x, y := t.text + a, t.text + b;
    assert x[0] == t.text[0] == y[0];
    assert x[..1] == y[..1];
    if t.text == "\r\n" {
      assert x[..2] == "\r\n" == y[..2];
    } else {
      assert t.text[0] in t.text && t.text[0] != '\r';
    }
  }

  lemma {:induction false} SameStartPaths(p: string, q: string, a: string, b: string)
    requires IsPathText(p) && IsPathText(q)
    ensures SameStart(p + a, q + b)
  {
    assert (p + a)[0] == p[0] && (q + b)[0] == q[0];
    assert p[0] in p && q[0] in q;
    assert (p + a)[..1] == [p[0]] && (q + b)[..1] == [q[0]];
    assert |p + a| >= 2 ==> (p + a)[..2][0] == p[0];
    assert |q + b| >= 2 ==> (q + b)[..2][0] == q[0];
  }

  lemma {:induction false} MapKeepsMunched(ts: seq<Token>, f: string -> string)
    requires Munched(ts) && KeepsPaths(f)
    ensures Munched(MapPaths(ts, f))
    ensures SameStart(Unlex(ts), Unlex(MapPaths(ts, f)))
  {
    if ts != [] {
      MapKeepsMunched(ts[1..], f);
      var t, t2 := ts[0], MapPaths(ts, f)[0];
      var rest, rest2 := Unlex(ts[1..]), Unlex(MapPaths(ts[1..], f));
      assert MapPaths(ts, f)[1..] == MapPaths(ts[1..], f);
      if t.kind == PATH {
        SameStartPaths(t.text, t2.text, rest, rest2);
      } else {
        SameStartAfter(t, rest, rest, rest2);
      }
    }
  }

  // ---- whole texts, line by line

  /** A character at which `splitlines` ends a line. */
  predicate IsBreak(c: char) {
    '\n' <= c <= '\r' || '\U{1c}' <= c <= '\U{1e}' || c == '\U{85}' || c == '\U{2028}' || c == '\U{2029}'
  }

  predicate NotBreak(c: char) {
    !IsBreak(c)
  }

  /** The length of the first line of `text.splitlines(keepends=True)`. */
  function LineLen(text: string): (n: nat)
    ensures n <= |text|
    ensures text != "" ==> n > 0
  {
    var i := Span(text, NotBreak);
    if i == |text| then i
    else if text[i] == '\r' && i + 1 < |text| && text[i + 1] == '\n' then i + 2
    else i + 1
  }

  /** `lex(text.splitlines(keepends=True))` */
  function LexText(text: string): Result<seq<Token>>
    decreases |text|
  {
    if text == "" then Ok([])
    else
      var n := LineLen(text);
      var first :- Lex(text[..n]);
      var rest :- LexText(text[n..]);
      Ok(first + rest)
  }

  predicate StartsNewline(s: string) {
    s != "" && s[0] == '\n'
  }

  lemma {:induction false} SpanAfter(a: string, rest: string, p: char -> bool)
    requires forall k :: 0 <= k < |a| ==> p(a[k])
    ensures Span(a + rest, p) == |a| + Span(rest, p)
  {
    if a == "" {
      assert a + rest == rest;
    } else {
      assert (a + rest)[1..] == a[1..] + rest;
      SpanAfter(a[1..], rest, p);
    }
  }

  lemma {:induction false} LineLenAfter(a: string, rest: string)
    requires forall k :: 0 <= k < |a| ==> NotBreak(a[k])
    ensures LineLen(a + rest) == |a| + LineLen(rest)
  {
    var s, i := a + rest, Span(rest, NotBreak);
    SpanAfter(a, rest, NotBreak);
    if i < |rest| { assert s[|a| + i] == rest[i]; }
    if i + 1 < |rest| { assert s[|a| + i + 1] == rest[i + 1]; }
  }

  lemma {:induction false} LineLenInside(a: string, r1: string, r2: string)
    requires Span(a, NotBreak) < |a|
    requires StartsNewline(r1) <==> StartsNewline(r2)
    ensures LineLen(a + r1) == LineLen(a + r2) <= |a| + 1
    ensures LineLen(a + r1) == |a| + 1 ==> StartsNewline(r1)
  {
    var i := Span(a, NotBreak);
    SpanInside(a, r1);
    SpanInside(a, r2);
    assert (a + r1)[i] == a[i] == (a + r2)[i];
    if i + 1 == |a| {
      assert r1 != "" ==> (a + r1)[i + 1] == r1[0];
      assert r2 != "" ==> (a + r2)[i + 1] == r2[0];
    }
  }

  lemma {:induction false} SpanInside(a: string, rest: string)
    requires Span(a, NotBreak) < |a|
    ensures Span(a + rest, NotBreak) == Span(a, NotBreak)
  {
    var i := Span(a, NotBreak);
    SpanOfAll(a[..i], a[i..] + rest, NotBreak);
    assert a[..i] + (a[i..] + rest) == a + rest;
    assert (a[i..] + rest)[0] == a[i];
  }

  lemma {:induction false} PathsHaveNoBreak(p: string)
    requires IsPathText(p)
    ensures forall k :: 0 <= k < |p| ==> NotBreak(p[k])
  {
    assert forall k :: 0 <= k < |p| ==> p[k] in p;
  }

  lemma {:induction false} OneNewline(ts: seq<Token>, f: string -> string)
    requires Munched(ts) && Unlex(ts) == "\n"
    ensures MapPaths(ts, f) == ts
  {
    MunchedLexes(ts);
    var t := FirstToken("\n").value;
    assert t == Token("\n", NEWLINE);
    assert Lex("\n") == Ok([t] + []);
    assert ts == [t];
  }

  /** The first token and the rest, before and after rewriting. */
  lemma HeadAndRest(ts: seq<Token>, f: string -> string, rest: string, rest2: string)
    requires ts != []
    ensures MapPaths(ts, f)[1..] == MapPaths(ts[1..], f)
    ensures Unlex(ts) + rest == ts[0].text + (Unlex(ts[1..]) + rest)
    ensures Unlex(MapPaths(ts, f)) + rest2 == MapPaths(ts, f)[0].text + (Unlex(MapPaths(ts[1..], f)) + rest2)
  {
    var us := MapPaths(ts, f);
    assert us[1..] == MapPaths(ts[1..], f);
    UnlexHead(ts, rest);
    UnlexHead(us, rest2);
  }

  lemma {:induction false} UnlexHead(ts: seq<Token>, rest: string)
    requires ts != []
    ensures Unlex(ts) + rest == ts[0].text + (Unlex(ts[1..]) + rest)
  {
    var a, b := ts[0].text, Unlex(ts[1..]);
    assert a + b + rest == a + (b + rest);
  }

  /** If the first token holds the line break, at most a newline token follows it in its line. */
  lemma {:induction false} BreakInFirst(t: Token, ts: seq<Token>, f: string -> string, rest: string)
    requires Munched(ts)
    requires Span(t.text, NotBreak) < |t.text|
    requires LineLen(t.text + (Unlex(ts) + rest)) == |t.text| + |Unlex(ts)|
    ensures MapPaths(ts, f) == ts && (Unlex(ts) == "" || Unlex(ts) == "\n")
  {
    var u := Unlex(ts);
    LineLenInside(t.text, u + rest, u + rest);
    if u != "" {
      assert (u + rest)[0] == u[0];
      assert u == "\n";
      OneNewline(ts, f);
    }
  }

  /** Rewriting the paths of a line leaves it a line. */
  lemma {:induction false} LineStaysLine(ts: seq<Token>, f: string -> string, rest: string, rest2: string)
    requires Munched(ts) && KeepsPaths(f)
    requires rest == "" <==> rest2 == ""
    requires StartsNewline(rest) <==> StartsNewline(rest2)
    requires LineLen(Unlex(ts) + rest) == |Unlex(ts)|
    ensures LineLen(Unlex(MapPaths(ts, f)) + rest2) == |Unlex(MapPaths(ts, f))|
  {
    if ts == [] {
      assert Unlex(ts) + rest == rest && Unlex(MapPaths(ts, f)) + rest2 == rest2;
      return;
    }
    var t, t2 := ts[0], MapPaths(ts, f)[0];
    var u, u2 := Unlex(ts[1..]), Unlex(MapPaths(ts[1..], f));
    HeadAndRest(ts, f, rest, rest2);
    if t.kind == PATH {
      PathsHaveNoBreak(t.text);
      PathsHaveNoBreak(t2.text);
    }
    if Span(t.text, NotBreak) == |t.text| {
      LineLenAfter(t.text, u + rest);
      LineLenAfter(t2.text, u2 + rest2);
      LineStaysLine(ts[1..], f, rest, rest2);
    } else {
      BreakInFirst(t, ts[1..], f, rest);
      assert StartsNewline(u + rest) <==> StartsNewline(u + rest2);
      LineLenInside(t.text, u + rest, u + rest2);
    }
  }

  lemma {:induction false} MapAppend(a: seq<Token>, b: seq<Token>, f: string -> string)
    ensures MapPaths(a + b, f) == MapPaths(a, f) + MapPaths(b, f)
  {
    if a == [] {
      assert a + b == b;
    } else {
      assert (a + b)[1..] == a[1..] + b;
      MapAppend(a[1..], b, f);
    }
  }

  lemma {:induction false} SameStartOfTokens(ts: seq<Token>, f: string -> string, rest: string, rest2: string)
    requires Munched(ts) && KeepsPaths(f) && ts != []
    ensures SameStart(Unlex(ts) + rest, Unlex(MapPaths(ts, f)) + rest2)
  {
    var t, t2 := ts[0], MapPaths(ts, f)[0];
    var u, u2 := Unlex(ts[1..]), Unlex(MapPaths(ts[1..], f));
    HeadAndRest(ts, f, rest, rest2);
    if t.kind == PATH {
      SameStartPaths(t.text, t2.text, u + rest, u2 + rest2);
    } else {
      SameStartAfter(t, u, u + rest, u2 + rest2);
    }
  }

  /** The first line and the rest, with their tokens. */
  lemma {:induction false} FirstLine(text: string) returns (line: string, rest: string)
    requires text != "" && LexText(text).Ok?
    ensures text == line + rest && line != "" && |rest| < |text| && LineLen(line + rest) == |line|
    ensures Lex(line).Ok? && LexText(rest).Ok? && LexText(text) == Ok(Lex(line).value + LexText(rest).value)
  {
    var n := LineLen(text);
    line, rest := text[..n], text[n..];
    assert text == line + rest;
  }

  lemma {:induction false} UnlexUndoesLexText(text: string)
    requires LexText(text).Ok?
    ensures Unlex(LexText(text).value) == text
    decreases |text|
  {
    if text != "" {
      var line, rest := FirstLine(text);
      assert Unlex(Lex(line).value) == line by { LexIsMunched(line); }
      assert Unlex(LexText(rest).value) == rest by { UnlexUndoesLexText(rest); }
      UnlexAppend(Lex(line).value, LexText(rest).value);
    }
  }

  /** A line's tokens, rewritten, before a rewritten rest. */
  lemma {:induction false} RelexLine(line: string, rest: string, rest2: string, more2: seq<Token>, f: string -> string)
    requires line != "" && LineLen(line + rest) == |line| && Lex(line).Ok? && KeepsPaths(f)
    requires LexText(rest2) == Ok(more2) && SameStart(rest, rest2)
    ensures var first2 := MapPaths(Lex(line).value, f);
            && LexText(Unlex(first2) + rest2) == Ok(first2 + more2)
            && SameStart(line + rest, Unlex(first2) + rest2)
  {
    var first := Lex(line).value;
    LexIsMunched(line);
    MapKeepsMunched(first, f);
    MunchedLexes(MapPaths(first, f));
    LineStaysLine(first, f, rest, rest2);
    SameStartOfTokens(first, f, rest, rest2);
    LexTwoParts(Unlex(MapPaths(first, f)), rest2, MapPaths(first, f), more2);
  }

  /** Lexing the rewritten text gives exactly the rewritten tokens. */
  lemma {:induction false} RelexText(text: string, f: string -> string)
    requires LexText(text).Ok? && KeepsPaths(f)
    ensures var ts := MapPaths(LexText(text).value, f);
            LexText(Unlex(ts)) == Ok(ts) && SameStart(text, Unlex(ts))
    decreases |text|
  {
    if text != "" {
      var line, rest := FirstLine(text);
      var first, more := Lex(line).value, LexText(rest).value;
      var first2, more2 := MapPaths(first, f), MapPaths(more, f);
      MapAppend(first, more, f);
      UnlexAppend(first2, more2);
      assert LexText(Unlex(first2) + Unlex(more2)) == Ok(first2 + more2)
          && SameStart(text, Unlex(first2) + Unlex(more2)) by {
        RelexText(rest, f);
        RelexLine(line, rest, Unlex(more2), more2, f);
      }
    }
  }

  lemma {:induction false} LexTwoParts(line: string, rest: string, first: seq<Token>, more: seq<Token>)
    requires line != "" && LineLen(line + rest) == |line|
    requires Lex(line) == Ok(first) && LexText(rest) == Ok(more)
    ensures LexText(line + rest) == Ok(first + more)
  {
  }

  /** `transform_paths` */
  function Transform(text: string, f: string -> string): Result<string> {
    var ts :- LexText(text);
    Ok(Unlex(MapPaths(ts, f)))
  }

  /** Every lexable text is its tokens put together, and rewriting its paths changes those tokens only. */
  lemma TransformRewritesTokens(text: string, f: string -> string)
    requires LexText(text).Ok? && KeepsPaths(f)
    ensures Unlex(LexText(text).value) == text
    ensures Transform(text, f).Ok?
    ensures LexText(Transform(text, f).value) == Ok(MapPaths(LexText(text).value, f))
  {
    RelexText(text, f);
    UnlexUndoesLexText(text);
  }

  lemma {:induction false} MapTwice(ts: seq<Token>, f: string -> string, g: string -> string)
    ensures MapPaths(MapPaths(ts, f), g) == MapPaths(ts, x => g(f(x)))
  {
    if ts != [] {
      assert MapPaths(ts, f)[1..] == MapPaths(ts[1..], f);
      MapTwice(ts[1..], f, g);
    }
  }

  /** Two rewrites one after the other are one rewrite by the composition, on every text: on text that does
      not lex, both fail. */
  lemma TransformComposes(text: string, f: string -> string, g: string -> string)
    requires KeepsPaths(f)
    ensures match Transform(text, f)
            case Ok(t) => Transform(t, g) == Transform(text, x => g(f(x)))
            case Err(_) => Transform(text, x => g(f(x))).Err?
  {
    if LexText(text).Ok? {
      RelexText(text, f);
      MapTwice(LexText(text).value, f, g);
    }
  }
}
