/** Download stubs: the small text file that stands in for an artifact kept in remote
    storage, how it is written, and how it is read back. */
module StubFiles {
  import opened Text

  const IDENTIFIER := "# RBE download stub"
  const WRAPPER := "//release/rbe/dlwrap.py"
  const HELP := "# run " + WRAPPER + " on this file to download"

  datatype StubInfo = StubInfo(
    path: string, kind: string, blobDigest: string, actionDigest: string, buildId: string)

  /** What the constructor asserts of every stub. */
  predicate Valid(info: StubInfo) {
    info.kind in {"file", "dir"} && '/' in info.blobDigest
  }

  function Binding(key: string, value: string): string {
    key + "=" + value
  }

  function StubLines(info: StubInfo): seq<string> {
    [ IDENTIFIER,
      HELP,
      Binding("path", info.path),
      Binding("type", info.kind),
      Binding("blob_digest", info.blobDigest),
      Binding("action_digest", info.actionDigest),
      Binding("build_id", info.buildId) ]
  }

  /** The text that `_write` leaves in the file. */
  function Render(info: StubInfo): string {
    Join(StubLines(info), '\n') + "\n"
  }

  // ---- reading

  predicate IsSpace(c: char) {
    || '\t' <= c <= '\r' || '\U{1c}' <= c <= ' ' || c == '\U{85}' || c == '\U{a0}' || c == '\U{1680}'
    || '\U{2000}' <= c <= '\U{200a}' || c == '\U{2028}' || c == '\U{2029}'
    || c == '\U{202f}' || c == '\U{205f}' || c == '\U{3000}'
  }

  /** `s.rstrip()` */
  function RStrip(s: string): (r: string)
    ensures r <= s
    ensures r != "" ==> !IsSpace(r[|r| - 1])
    ensures forall k :: |r| <= k < |s| ==> IsSpace(s[k])
  {
    if s != "" && IsSpace(s[|s| - 1]) then RStrip(s[..|s| - 1]) else s
  }

  /** Text mode turns every line ending into a newline. */
  function UniversalNewlines(s: string): (r: string)
    ensures '\r' !in r
    ensures '\r' !in s ==> r == s
  {
    if s == "" then ""
    else if s[0] == '\r' then
      "\n" + UniversalNewlines(if |s| > 1 && s[1] == '\n' then s[2..] else s[1..])
    else
      [s[0]] + UniversalNewlines(s[1..])
  }

  /** The dictionary after one more line: lines without "=" are skipped, later keys win. */
  function ReadLine(variables: map<string, string>, line: string): map<string, string> {
    var eq := FindChar(line, '=', 0, |line|);
    if eq < 0 then variables else variables[line[..eq] := RStrip(line[eq + 1..])]
  }

  function ReadLines(lines: seq<string>): map<string, string> {
    if lines == [] then map[]
    else ReadLine(ReadLines(lines[..|lines| - 1]), lines[|lines| - 1])
  }

  function FromVariables(v: map<string, string>): (r: Result<StubInfo>)
    ensures r.Ok? ==> Valid(r.value)
  {
    if {"path", "type", "blob_digest", "action_digest", "build_id"} <= v.Keys then
      var info := StubInfo(v["path"], v["type"], v["blob_digest"], v["action_digest"], v["build_id"]);
      if Valid(info) then Ok(info) else Err("malformed download stub")
    else Err("missing variable")
  }

  /** `read_from_file`: the error cases are a wrong first line, a missing key and the
      constructor's assertions. A last empty line adds nothing, as it has no "=". */
  function ReadStub(text: string): (r: Result<StubInfo>)
    ensures r.Ok? ==> Valid(r.value)
  {
    var lines := Split(UniversalNewlines(text), '\n');
    if RStrip(lines[0]) != IDENTIFIER then Err("not a download stub")
    else FromVariables(ReadLines(lines[1..]))
  }

  // ---- what survives

  /** A field that a line of text can carry: no line break, no trailing white space. */
  predicate LineSafe(s: string) {
    '\n' !in s && '\r' !in s && (s != "" ==> !IsSpace(s[|s| - 1]))
  }

  predicate Clean(info: StubInfo) {
    LineSafe(info.path) && LineSafe(info.kind) && LineSafe(info.blobDigest) &&
    LineSafe(info.actionDigest) && LineSafe(info.buildId)
  }

  lemma {:induction false} ReadBinding(lines: seq<string>, key: string, value: string)
    requires '=' !in key && LineSafe(value)
    ensures ReadLines(lines + [Binding(key, value)]) == ReadLines(lines)[key := value]
  {
    var line := Binding(key, value);
    assert (lines + [line])[..|lines|] == lines;
    assert line[|key|] == '=';
    assert forall k :: 0 <= k < |key| ==> line[k] == key[k];
    assert line[..|key|] == key && line[|key| + 1..] == value;
  }

  lemma {:induction false} ReadOther(lines: seq<string>, line: string)
    requires '=' !in line
    ensures ReadLines(lines + [line]) == ReadLines(lines)
  {
  }

  function OwnVariables(info: StubInfo): map<string, string> {
    map["path" := info.path, "type" := info.kind, "blob_digest" := info.blobDigest,
        "action_digest" := info.actionDigest, "build_id" := info.buildId]
  }

  lemma {:induction false} OwnVariablesReadBack(info: StubInfo)
    requires Valid(info)
    ensures FromVariables(OwnVariables(info)) == Ok(info)
  {
  }

  lemma {:induction false} ReadOwnLines(info: StubInfo)
    requires Clean(info)
    ensures ReadLines(StubLines(info)[1..] + [""]) == OwnVariables(info)
  {
    HelpIsPlain();
    var l0 := [HELP];
    ReadOther([], HELP);
    assert [] + [HELP] == l0;
    var l1 := l0 + [Binding("path", info.path)];
    ReadBinding(l0, "path", info.path);
    var l2 := l1 + [Binding("type", info.kind)];
    ReadBinding(l1, "type", info.kind);
    var l3 := l2 + [Binding("blob_digest", info.blobDigest)];
    ReadBinding(l2, "blob_digest", info.blobDigest);
    var l4 := l3 + [Binding("action_digest", info.actionDigest)];
    ReadBinding(l3, "action_digest", info.actionDigest);
    var l5 := l4 + [Binding("build_id", info.buildId)];
    ReadBinding(l4, "build_id", info.buildId);
    ReadOther(l5, "");
    assert StubLines(info)[1..] + [""] == l5 + [""];
  }

  lemma {:induction false} SplitOwnText(info: StubInfo)
    requires Clean(info)
    ensures Split(UniversalNewlines(Render(info)), '\n') == StubLines(info) + [""]
  {
    var lines := StubLines(info) + [""];
    assert lines[..7] == StubLines(info);
    assert Render(info) == Join(lines, '\n');
    CleanLines(info);
    JoinLacksReturn(lines);
    SplitJoin(lines, '\n');
  }

  predicate OneLine(s: string) {
    '\n' !in s && '\r' !in s
  }

  lemma {:induction false} CleanLines(info: StubInfo)
    requires Clean(info)
    ensures forall l :: l in StubLines(info) + [""] ==> OneLine(l)
  {
    HelpIsPlain();
    BindingIsOneLine("path", info.path);
    BindingIsOneLine("type", info.kind);
    BindingIsOneLine("blob_digest", info.blobDigest);
    BindingIsOneLine("action_digest", info.actionDigest);
    BindingIsOneLine("build_id", info.buildId);
  }

  lemma {:induction false} HelpIsPlain()
    ensures OneLine(IDENTIFIER) && OneLine(HELP) && '=' !in HELP
  {
    HelpLacks('\n');
    HelpLacks('\r');
    HelpLacks('=');
  }

  lemma {:induction false} HelpLacks(x: char)
    requires x == '\n' || x == '\r' || x == '='
    ensures x !in HELP
  {
  }

  lemma BindingIsOneLine(key: string, value: string)
    requires OneLine(key) && OneLine(value)
    ensures OneLine(Binding(key, value))
  {
  }

  lemma {:induction false} JoinLacksReturn(lines: seq<string>)
    requires forall l :: l in lines ==> '\r' !in l
    ensures '\r' !in Join(lines, '\n')
  {
    if |lines| > 1 { JoinLacksReturn(lines[..|lines| - 1]); }
  }

  lemma {:induction false} SplitPieces(s: string, sep: char, other: char)
    requires other !in s
    ensures forall p :: p in Split(s, sep) ==> sep !in p && other !in p
  {
    var i := RFindChar(s, sep, 0, |s|);
    if i >= 0 { SplitPieces(s[..i], sep, other); }
  }

  lemma {:induction false} ReadLineSafe(variables: map<string, string>, line: string)
    requires OneLine(line)
    requires forall k :: k in variables ==> LineSafe(variables[k])
    ensures var v := ReadLine(variables, line); forall k :: k in v ==> LineSafe(v[k])
  {
  }

  lemma {:induction false} ReadValuesAreSafe(lines: seq<string>)
    requires forall l :: l in lines ==> OneLine(l)
    ensures forall k :: k in ReadLines(lines) ==> LineSafe(ReadLines(lines)[k])
  {
    if lines != [] {
      var n := |lines| - 1;
      ReadValuesAreSafe(lines[..n]);
      ReadLineSafe(ReadLines(lines[..n]), lines[n]);
    }
  }

  lemma {:induction false} CleanReadsBack(info: StubInfo)
    requires Valid(info) && Clean(info)
    ensures ReadStub(Render(info)) == Ok(info)
  {
    var lines := StubLines(info) + [""];
    SplitOwnText(info);
    IdentifierIsStripped();
    assert lines[0] == IDENTIFIER && lines[1..] == StubLines(info)[1..] + [""];
    assert ReadStub(Render(info)) == FromVariables(ReadLines(lines[1..]));
    ReadOwnLines(info);
    OwnVariablesReadBack(info);
  }

  lemma IdentifierIsStripped()
    ensures RStrip(IDENTIFIER) == IDENTIFIER
  {
  }

  lemma {:induction false} ReadIsClean(text: string)
    ensures ReadStub(text).Ok? ==> Clean(ReadStub(text).value)
  {
    var lines := Split(UniversalNewlines(text), '\n');
    SplitPieces(UniversalNewlines(text), '\n', '\r');
    ReadValuesAreSafe(lines[1..]);
    SafeVariables(ReadLines(lines[1..]));
  }

  lemma {:induction false} SafeVariables(v: map<string, string>)
    requires forall k :: k in v ==> LineSafe(v[k])
    ensures FromVariables(v).Ok? ==> Clean(FromVariables(v).value)
  {
  }

  /** Reading undoes writing exactly for the stubs whose fields fit on a line. */
  lemma {:induction false} ReadUndoesWrite(info: StubInfo)
    requires Valid(info)
    ensures ReadStub(Render(info)) == Ok(info) <==> Clean(info)
  {
    ReadIsClean(Render(info));
    if Clean(info) { CleanReadsBack(info); }
  }

  // ---- files

  /** A file: its text, and whether it carries the extended attribute of a stub. */
  datatype File = File(text: string, tagged: bool)

  /** `is_download_stub_file`, with or without support for extended attributes. */
  predicate IsStub(haveXattr: bool, f: File) {
    if haveXattr then f.tagged else StartsWith(f.text, IDENTIFIER)
  }

  /** The file that `create` leaves behind. */
  function StubFile(haveXattr: bool, info: StubInfo): File {
    File(Render(info), haveXattr)
  }

  /** A downloaded artifact: its bytes, untagged. */
  function RealFile(bytes: string): File {
    File(bytes, false)
  }

  /** Artifacts that cannot be taken for stubs. */
  predicate Plain(haveXattr: bool, bytes: string) {
    haveXattr || !StartsWith(bytes, IDENTIFIER)
  }

  lemma {:induction false} JoinStartsWithFirst(parts: seq<string>, sep: char)
    requires parts != []
    ensures StartsWith(Join(parts, sep), parts[0])
  {
    if |parts| > 1 { JoinStartsWithFirst(parts[..|parts| - 1], sep); }
  }

  /** A stub is recognised and reads back; an artifact is recognised as one exactly when it is not plain. */
  lemma {:induction false} FilesAreToldApart(haveXattr: bool, info: StubInfo, bytes: string)
    requires Valid(info) && Clean(info)
    ensures IsStub(haveXattr, StubFile(haveXattr, info))
    ensures ReadStub(StubFile(haveXattr, info).text) == Ok(info)
    ensures IsStub(haveXattr, RealFile(bytes)) <==> !Plain(haveXattr, bytes)
  {
    ReadUndoesWrite(info);
    JoinStartsWithFirst(StubLines(info), '\n');
  }
}
