/** GN labels: splitting, qualifying, and their short form as build arguments. */
module GnLabels {
  import opened Text

  // ---- splitting and qualifying

  function SplitTarget(target: string): Result<(string, string)> {
    var colon := FindChar(target, ':', 0, |target|);
    if colon >= 0 then Ok((target[..colon], target[colon + 1..]))
    else
      var pos := RFindChar(target, '/', 0, |target|);
      if pos < 0 then Err("AssertionError") else Ok((target[..pos], target[pos + 1..]))
  }

  /** Target and toolchain; "//" past the start is refused, but not in a target before a toolchain. */
  function SplitLabel(s: string): Result<(string, string)> {
    if !StartsWith(s, "//") then Err("GN Label must start with //")
    else
      var tc := FindChar(s, '(', 2, |s|);
      if tc < 0 then
        if Find(s, "//", 2) >= 0 then Err("GN label cannot use // after start.") else Ok((s, ""))
      else if s[|s| - 1] != ')' then Err("GN label missing toolchain closing paren")
      else if Find(s, "//", tc + 3) >= 0 then Err("Malformed GN label toolchain")
      else Ok((s[..tc], s[tc + 1..|s| - 1]))
  }

  function BaseName(s: string): string {
    s[RFindChar(s, '/', 0, |s|) + 1..]
  }

  function QualifyTarget(target: string): Result<string> {
    if !StartsWith(target, "//") then Err("GN Label must start with //")
    else if ':' in target then Ok(target)
    else Ok(target + ":" + BaseName(target))
  }

  const TOOLCHAINS := "//release/toolchain"

  datatype Qualifier = Qualifier(hostCpu: string, targetCpu: string)
  {
    function Host(): string {
      TOOLCHAINS + ":host_" + hostCpu
    }

    function Default(): string {
      TOOLCHAINS + "/fuchsia:" + targetCpu
    }

    /** The toolchain aliases, in order. */
    function Aliases(): seq<(string, string)> {
      [("host", Host()), ("default", Default()), ("fuchsia", Default()), ("fidl", "//release/fidl:fidling")]
    }

    function AliasToolchain(name: string): Option<string> {
      FirstWith(Aliases(), name)
    }

    function QualifyToolchain(toolchain: string): Result<string> {
      if StartsWith(toolchain, "//") then
        if '(' in toolchain then Err("GN toolchain cannot have toolchain suffix") else QualifyTarget(toolchain)
      else
        var alias := AliasToolchain(toolchain);
        if alias.None? then Err("Unknown GN toolchain alias") else Ok(alias.value)
    }

    function QualifyLabel(s: string, fallback: string): Result<string> {
      var parts := SplitLabel(s);
      if parts.Err? then Err(parts.message)
      else
        var target := QualifyTarget(parts.value.0);
        if target.Err? then target
        else if parts.value.1 == "" then Ok(WithToolchain(target.value, fallback))
        else
          var toolchain := QualifyToolchain(parts.value.1);
          if toolchain.Err? then toolchain
          else Ok(WithToolchain(target.value, if toolchain.value == Default() then "" else toolchain.value))
    }

    function LabelToBuildArgs(s: string): Result<seq<string>> {
      var parts := SplitLabel(s);
      if parts.Err? then Err(parts.message)
      else
        var names := SplitTarget(parts.value.0);
        if names.Err? then Err(names.message)
        else
          var target := if names.value.1 == BaseName(names.value.0) then names.value.0 else parts.value.0;
          var toolchain := parts.value.1;
          if toolchain == Default() || toolchain == "" then Ok([target])
          else
            var alias := AliasFor(Aliases(), toolchain);
            if alias.Some? then Ok(["--" + alias.value, target]) else Ok([TOOLCHAIN + toolchain, target])
    }

    /** The labels that the arguments from here on name, given the current toolchain. */
    function Labels(ninja: string -> string, args: seq<string>, toolchain: string): Result<seq<string>> {
      if args == [] then Ok([])
      else
        var arg, rest := args[0], args[1..];
        if StartsWith(arg, TOOLCHAIN) then
          var next := QualifyToolchain(arg[|TOOLCHAIN|..]);
          if next.Err? then Err(next.message) else Labels(ninja, rest, next.value)
        else if StartsWith(arg, "--") then
          var next := AliasToolchain(arg[2..]);
          if next.None? then Err("Invalid toolchain alias")
          else Labels(ninja, rest, if next.value == Default() then "" else next.value)
        else if StartsWith(arg, "//") then
          var found := QualifyLabel(arg, toolchain);
          if found.Err? then Err(found.message) else Onto([found.value], Labels(ninja, rest, toolchain))
        else if ninja(arg) != "" then Onto([ninja(arg)], Labels(ninja, rest, toolchain))
        else Labels(ninja, rest, toolchain)
    }
  }

  const TOOLCHAIN := "--toolchain="

  function WithToolchain(target: string, toolchain: string): string {
    if toolchain == "" then target else target + "(" + toolchain + ")"
  }

  function FirstWith(aliases: seq<(string, string)>, name: string): Option<string> {
    if aliases == [] then None
    else if aliases[0].0 == name then Some(aliases[0].1)
    else FirstWith(aliases[1..], name)
  }

  function AliasFor(aliases: seq<(string, string)>, toolchain: string): Option<string> {
    if aliases == [] then None
    else if aliases[0].1 == toolchain then Some(aliases[0].0)
    else AliasFor(aliases[1..], toolchain)
  }

  method BuildArgsToLabels(q: Qualifier, ninja: string -> string, args: seq<string>) returns (r: Result<seq<string>>)
    ensures r == q.Labels(ninja, args, "")
  {
    var result: seq<string> := [];
    var toolchain := "";
    OntoMore([], [], q.Labels(ninja, args, ""));
    assert args[0..] == args;
    for i := 0 to |args|
      invariant q.Labels(ninja, args, "") == Onto(result, q.Labels(ninja, args[i..], toolchain))
    {
      var arg := args[i];
      assert args[i..][1..] == args[i + 1..];
      if StartsWith(arg, TOOLCHAIN) {
        var next := q.QualifyToolchain(arg[|TOOLCHAIN|..]);
        if next.Err? { return Err(next.message); }
        toolchain := next.value;
      } else if StartsWith(arg, "--") {
        var next := q.AliasToolchain(arg[2..]);
        if next.None? { return Err("Invalid toolchain alias"); }
        toolchain := if next.value == q.Default() then "" else next.value;
      } else if StartsWith(arg, "//") {
        var found := q.QualifyLabel(arg, toolchain);
        if found.Err? { return Err(found.message); }
        OntoMore(result, [found.value], q.Labels(ninja, args[i + 1..], toolchain));
        result := result + [found.value];
      } else {
        var found := ninja(arg);
        if found != "" {
          OntoMore(result, [found], q.Labels(ninja, args[i + 1..], toolchain));
          result := result + [found];
        }
      }
    }
    OntoMore(result, [], Ok([]));
    r := Ok(result);
  }

  // ---- double slashes

  /** No "//" from position lo on. */
  predicate NoDouble(s: string, lo: nat) {
    forall p :: lo <= p < |s| - 1 && s[p] == '/' ==> s[p + 1] != '/'
  }

  lemma {:induction false} FindDouble(s: string, lo: nat)
    ensures Find(s, "//", lo) == -1 <==> NoDouble(s, lo)
  {
    FindIsFirst(s, "//", lo);
    var r := Find(s, "//", lo);
    if r >= 0 {
      var found := s[r..r + |"//"|];
      assert found == "//" && s[r] == found[0] && s[r + 1] == found[1];
    } else {
      forall p | lo <= p < |s| - 1 && s[p] == '/' ensures s[p + 1] != '/' {
        assert !OccursAt(s, "//", p);
        assert s[p..p + 2] == [s[p], s[p + 1]];
      }
    }
  }

  lemma {:induction false} BaseNameHasNoSlash(s: string)
    ensures '/' !in BaseName(s)
    ensures StartsWith(s, "//") ==> s == s[..|s| - |BaseName(s)|] + BaseName(s)
  {
  }

  lemma {:induction false} TailAddsNoDouble(t: string, tail: string, lo: nat)
    requires '/' !in tail
    ensures NoDouble(t + tail, lo) <==> NoDouble(t, lo)
  {
    var q := t + tail;
    assert forall p :: 0 <= p < |t| ==> q[p] == t[p];
    forall p | |t| <= p < |q| ensures q[p] != '/' {
      assert q[p] == tail[p - |t|] && tail[p - |t|] in tail;
    }
  }

  /** Qualifying a target adds no "//", no parenthesis that was not there, and the name only once. */
  lemma {:induction false} QualifiedTarget(t: string, lo: nat)
    requires QualifyTarget(t).Ok?
    ensures var q := QualifyTarget(t).value;
            && StartsWith(q, "//") && ':' in q && QualifyTarget(q) == Ok(q)
            && (NoDouble(q, lo) <==> NoDouble(t, lo))
            && ('(' in q <==> '(' in t)
  {
    var b := BaseName(t);
    var q := QualifyTarget(t).value;
    BaseNameHasNoSlash(t);
    if ':' !in t {
      var tail := ":" + b;
      assert q == t + tail;
      assert NoDouble(q, lo) <==> NoDouble(t, lo) by { TailAddsNoDouble(t, tail, lo); }
      assert forall c :: c in tail ==> c in t || c == ':';
      assert tail[0] in q;
    }
  }

  // ---- splitting what was put together

  lemma {:induction false} SplitPlain(t: string)
    requires StartsWith(t, "//") && '(' !in t
    ensures SplitLabel(t) == if NoDouble(t, 2) then Ok((t, "")) else Err("GN label cannot use // after start.")
  {
    FindDouble(t, 2);
  }

  lemma {:induction false} DoubleInSuffix(t: string, tc: string)
    ensures NoDouble(t + "(" + tc + ")", |t| + 3) <==> NoDouble(tc, 2)
  {
    var s, n := t + "(" + tc + ")", |t| + 1;
    assert forall p :: 0 <= p < |tc| ==> s[n + p] == tc[p];
    assert s[|s| - 1] == ')';
    if NoDouble(s, n + 2) {
      forall p | 2 <= p < |tc| - 1 && tc[p] == '/' ensures tc[p + 1] != '/' {
        assert s[n + p] == tc[p] && s[n + p + 1] == tc[p + 1];
      }
    }
    if NoDouble(tc, 2) {
      forall p | n + 2 <= p < |s| - 1 && s[p] == '/' ensures s[p + 1] != '/' {
        assert s[p] == tc[p - n];
        assert p + 1 < |s| - 1 ==> s[p + 1] == tc[p - n + 1];
      }
    }
  }

  lemma {:induction false} SplitSuffixed(t: string, tc: string)
    requires StartsWith(t, "//") && '(' !in t && NoDouble(tc, 2)
    ensures SplitLabel(t + "(" + tc + ")") == Ok((t, tc))
  {
    var s := t + "(" + tc + ")";
    assert s[|t|] == '(' && forall k :: 0 <= k < |t| ==> s[k] == t[k];
    assert s[..2] == t[..2];
    assert FindChar(s, '(', 2, |s|) == |t|;
    DoubleInSuffix(t, tc);
    FindDouble(s, |t| + 3);
    assert s[..|t|] == t && s[|t| + 1..|s| - 1] == tc;
  }

  lemma {:induction false} SplitParts(s: string)
    requires SplitLabel(s).Ok?
    ensures var t, tc := SplitLabel(s).value.0, SplitLabel(s).value.1;
            && StartsWith(t, "//") && '(' !in t && NoDouble(tc, 2)
            && ((s == t && tc == "" && NoDouble(t, 2)) || s == t + "(" + tc + ")")
  {
    var tc := FindChar(s, '(', 2, |s|);
    if tc < 0 {
      FindDouble(s, 2);
    } else {
      var t, u := s[..tc], s[tc + 1..|s| - 1];
      assert s == t + "(" + u + ")";
      assert t[..2] == s[..2];
      FindDouble(s, tc + 3);
      DoubleInSuffix(t, u);
    }
  }

  // ---- qualifying twice

  /** CPU names that keep a toolchain label well formed. */
  predicate CleanCpu(cpu: string) {
    '(' !in cpu && NoDouble(cpu, 0)
  }

  /** A toolchain label that qualifying leaves alone. */
  predicate Settled(tc: string) {
    StartsWith(tc, "//") && ':' in tc && '(' !in tc && NoDouble(tc, 2)
  }

  lemma {:induction false} PrefixSettles(prefix: string, cpu: string)
    requires Settled(prefix) && prefix[|prefix| - 1] != '/' && CleanCpu(cpu)
    ensures Settled(prefix + cpu)
  {
  }

  predicate CleanCpus(q: Qualifier) {
    CleanCpu(q.hostCpu) && CleanCpu(q.targetCpu)
  }

  lemma {:induction false} HostSettles(q: Qualifier)
    requires CleanCpus(q)
    ensures Settled(q.Host())
  {
    PrefixSettles(TOOLCHAINS + ":host_", q.hostCpu);
  }

  lemma {:induction false} DefaultSettles(q: Qualifier)
    requires CleanCpus(q)
    ensures Settled(q.Default())
  {
    PrefixSettles(TOOLCHAINS + "/fuchsia:", q.targetCpu);
  }

  lemma {:induction false} FidlSettles()
    ensures Settled("//release/fidl:fidling")
  {
  }

  lemma {:induction false} AliasesSettle(q: Qualifier, name: string)
    requires CleanCpus(q) && q.AliasToolchain(name).Some?
    ensures Settled(q.AliasToolchain(name).value)
  {
    HostSettles(q);
    DefaultSettles(q);
    FidlSettles();
    FirstIsOneOf(q.Aliases(), name);
  }

  lemma {:induction false} FirstIsOneOf(aliases: seq<(string, string)>, name: string)
    requires FirstWith(aliases, name).Some?
    ensures exists i :: 0 <= i < |aliases| && aliases[i].1 == FirstWith(aliases, name).value
  {
    if aliases[0].0 != name {
      FirstIsOneOf(aliases[1..], name);
      var i :| 0 <= i < |aliases[1..]| && aliases[1..][i].1 == FirstWith(aliases, name).value;
      assert aliases[i + 1] == aliases[1..][i];
    }
  }

  lemma {:induction false} SettledStays(q: Qualifier, tc: string)
    requires Settled(tc)
    ensures q.QualifyToolchain(tc) == Ok(tc)
  {
  }

  lemma {:induction false} ToolchainSettles(q: Qualifier, tc: string)
    requires CleanCpus(q) && NoDouble(tc, 2) && q.QualifyToolchain(tc).Ok?
    ensures Settled(q.QualifyToolchain(tc).value)
  {
    if StartsWith(tc, "//") { QualifiedTarget(tc, 2); } else { AliasesSettle(q, tc); }
  }

  /** The label names a toolchain, and not the default one. */
  predicate NamesToolchain(q: Qualifier, tc: string) {
    tc != "" && q.QualifyToolchain(tc).Ok? && q.QualifyToolchain(tc).value != q.Default()
  }

  lemma {:induction false} QualifiedForm(q: Qualifier, s: string)
    requires q.QualifyLabel(s, "").Ok?
    ensures var t, tc := SplitLabel(s).value.0, SplitLabel(s).value.1;
            && QualifyTarget(t).Ok?
            && q.QualifyLabel(s, "") ==
               Ok(WithToolchain(QualifyTarget(t).value,
                                if NamesToolchain(q, tc) then q.QualifyToolchain(tc).value else ""))
  {
  }

  /** Qualifying a qualified label changes nothing, exactly when its target has no "//" past the start or keeps a
      toolchain; otherwise the second time fails. */
  lemma {:induction false} QualifyTwiceIff(q: Qualifier, s: string)
    requires CleanCpus(q) && q.QualifyLabel(s, "").Ok?
    ensures var v, t, tc := q.QualifyLabel(s, "").value, SplitLabel(s).value.0, SplitLabel(s).value.1;
            && (NoDouble(t, 2) || NamesToolchain(q, tc) ==> q.QualifyLabel(v, "") == Ok(v))
            && (!NoDouble(t, 2) && !NamesToolchain(q, tc) ==> q.QualifyLabel(v, "").Err?)
  {
    var t, tc := SplitLabel(s).value.0, SplitLabel(s).value.1;
    QualifiedForm(q, s);
    SplitParts(s);
    QualifiedTarget(t, 2);
    var u := QualifyTarget(t).value;
    if NamesToolchain(q, tc) {
      var v := q.QualifyToolchain(tc).value;
      ToolchainSettles(q, tc);
      SettledStays(q, v);
      SplitSuffixed(u, v);
    } else {
      SplitPlain(u);
    }
  }

  /** For instance: an empty toolchain lets a "//" slip through once, not twice. */
  lemma {:induction false} DoubleSlashSlipsThrough(q: Qualifier)
    ensures q.QualifyLabel("//a//b" + "()", "") == Ok("//a//b" + ":b")
    ensures q.QualifyLabel("//a//b" + ":b", "").Err?
  {
    var t := "//a//b";
    assert t[..2] == "//" && t[3] == '/' && t[4] == '/' && t[5] == 'b';
    assert "//a//b" + "()" == t + "(" + "" + ")";
    SplitSuffixed(t, "");
    assert BaseName(t) == "b";
    assert ":" + "b" == ":b" && t + ":" + "b" == t + ":b";
    QualifiedTarget(t, 2);
    SplitPlain(t + ":b");
  }

  // ---- build arguments and back

  predicate Canonical(q: Qualifier, s: string) {
    q.QualifyLabel(s, "") == Ok(s)
  }

  lemma {:induction false} FirstParen(t: string, tc: string)
    requires '(' !in t
    ensures var s := t + "(" + tc + ")"; FindChar(s, '(', 0, |s|) == |t|
  {
    var s := t + "(" + tc + ")";
    assert s[|t|] == '(' && forall k :: 0 <= k < |t| ==> s[k] == t[k];
  }

  lemma {:induction false} SamePrefix(a: string, b: string, c: string, d: string)
    requires a + "(" + b + ")" == c + "(" + d + ")" && '(' !in a && '(' !in c
    ensures a == c && b == d
  {
    var s := a + "(" + b + ")";
    FirstParen(a, b);
    FirstParen(c, d);
    assert s[..|a|] == a && s[..|c|] == c;
    assert s[|a| + 1..|s| - 1] == b && s[|c| + 1..|s| - 1] == d;
  }

  lemma {:induction false} CanonicalParts(q: Qualifier, s: string)
    requires Canonical(q, s)
    ensures var t, tc := SplitLabel(s).value.0, SplitLabel(s).value.1;
            && ':' in t && s == WithToolchain(t, tc)
            && (tc != "" ==> q.QualifyToolchain(tc) == Ok(tc) && tc != q.Default())
  {
    var t, tc := SplitLabel(s).value.0, SplitLabel(s).value.1;
    QualifiedForm(q, s);
    SplitParts(s);
    QualifiedTarget(t, 2);
    var u := QualifyTarget(t).value;
    if NamesToolchain(q, tc) {
      SamePrefix(u, q.QualifyToolchain(tc).value, t, tc);
    } else {
      assert s == u && '(' !in s;
      assert s == t by {
        assert (t + "(" + tc + ")")[|t|] == '(';
      }
    }
  }

  /** The target as the build arguments write it. */
  function ShortTarget(t: string): string
    requires SplitTarget(t).Ok?
  {
    if SplitTarget(t).value.1 == BaseName(SplitTarget(t).value.0) then SplitTarget(t).value.0 else t
  }

  lemma {:induction false} ShortTargetQualifies(t: string)
    requires StartsWith(t, "//") && ':' in t && '(' !in t
    ensures SplitTarget(t).Ok?
    ensures var u := ShortTarget(t);
            QualifyTarget(u) == Ok(t) && StartsWith(u, "//") && '(' !in u && (NoDouble(u, 2) <==> NoDouble(t, 2))
  {
    var colon := FindChar(t, ':', 0, |t|);
    var dir, name := t[..colon], t[colon + 1..];
    assert t == dir + ":" + name;
    assert colon >= 2 by { assert t[..2][0] == '/' && t[..2][1] == '/'; }
    assert dir[..2] == t[..2];
    assert ':' !in dir;
    QualifiedTarget(ShortTarget(t), 2);
  }

  lemma {:induction false} ShortTargetWith(q: Qualifier, t: string, tc: string)
    requires StartsWith(t, "//") && ':' in t && '(' !in t
    ensures SplitTarget(t).Ok?
    ensures q.QualifyLabel(ShortTarget(t), tc).Ok? <==> NoDouble(t, 2)
    ensures NoDouble(t, 2) ==> q.QualifyLabel(ShortTarget(t), tc) == Ok(WithToolchain(t, tc))
  {
    ShortTargetQualifies(t);
    SplitPlain(ShortTarget(t));
  }

  lemma {:induction false} FirstChar(s: string, prefix: string)
    requires s != [] && prefix != []
    ensures StartsWith(s, prefix) ==> s[0] == prefix[0]
  {
  }

  lemma {:induction false} TargetArg(q: Qualifier, ninja: string -> string, u: string, tc: string)
    requires StartsWith(u, "//")
    ensures q.QualifyLabel(u, tc).Ok? ==> q.Labels(ninja, [u], tc) == Ok([q.QualifyLabel(u, tc).value])
    ensures q.QualifyLabel(u, tc).Err? ==> q.Labels(ninja, [u], tc).Err?
  {
    FirstChar(u, "//");
    FirstChar(u, "--");
    FirstChar(u, TOOLCHAIN);
    assert [u][1..] == [] && q.Labels(ninja, [], tc) == Ok([]);
    if q.QualifyLabel(u, tc).Ok? {
      OntoMore([q.QualifyLabel(u, tc).value], [], Ok([]));
    }
  }

  /** Short names, each used once. */
  predicate GoodNames(aliases: seq<(string, string)>) {
    (forall i :: 0 <= i < |aliases| ==> |aliases[i].0| < 10) &&
    forall i, j :: 0 <= i < j < |aliases| ==> aliases[i].0 != aliases[j].0
  }

  lemma {:induction false} AliasIsFound(aliases: seq<(string, string)>, tc: string)
    requires GoodNames(aliases) && AliasFor(aliases, tc).Some?
    ensures var a := AliasFor(aliases, tc).value;
            FirstWith(aliases, a) == Some(tc) && exists i :: 0 <= i < |aliases| && aliases[i].0 == a
  {
    if aliases[0].1 != tc {
      var rest, a := aliases[1..], AliasFor(aliases, tc).value;
      assert forall i :: 0 <= i < |rest| ==> rest[i] == aliases[i + 1];
      AliasIsFound(rest, tc);
      var i :| 0 <= i < |rest| && rest[i].0 == a;
      assert aliases[i + 1].0 == a;
    }
  }

  lemma {:induction false} AliasesHaveGoodNames(q: Qualifier)
    ensures GoodNames(q.Aliases())
  {
  }

  lemma {:induction false} AliasArg(q: Qualifier, ninja: string -> string, a: string, u: string)
    requires |a| < 10 && q.AliasToolchain(a).Some?
    ensures q.Labels(ninja, ["--" + a, u], "") ==
            q.Labels(ninja, [u], if q.AliasToolchain(a).value == q.Default() then "" else q.AliasToolchain(a).value)
  {
  }

  lemma {:induction false} ToolchainArg(q: Qualifier, ninja: string -> string, tc: string, u: string)
    requires q.QualifyToolchain(tc).Ok?
    ensures q.Labels(ninja, [TOOLCHAIN + tc, u], "") == q.Labels(ninja, [u], q.QualifyToolchain(tc).value)
  {
  }

  lemma {:induction false} ArgsOfCanonical(q: Qualifier, ninja: string -> string, s: string)
    requires Canonical(q, s)
    ensures var t, tc := SplitLabel(s).value.0, SplitLabel(s).value.1;
            && SplitTarget(t).Ok? && q.LabelToBuildArgs(s).Ok?
            && q.Labels(ninja, q.LabelToBuildArgs(s).value, "") == q.Labels(ninja, [ShortTarget(t)], tc)
  {
    var t, tc := SplitLabel(s).value.0, SplitLabel(s).value.1;
    CanonicalParts(q, s);
    SplitParts(s);
    ShortTargetQualifies(t);
    if tc != "" {
      AliasesHaveGoodNames(q);
      var alias := AliasFor(q.Aliases(), tc);
      if alias.Some? {
        AliasIsFound(q.Aliases(), tc);
        AliasArg(q, ninja, alias.value, ShortTarget(t));
      } else {
        ToolchainArg(q, ninja, tc, ShortTarget(t));
      }
    }
  }

  /** The build arguments of a canonical label name exactly that label, if and only if its target has no "//" past the
      start; otherwise they are refused. */
  lemma {:induction false} BuildArgsRoundTripIff(q: Qualifier, ninja: string -> string, s: string)
    requires Canonical(q, s)
    ensures q.LabelToBuildArgs(s).Ok?
    ensures var t, r := SplitLabel(s).value.0, q.Labels(ninja, q.LabelToBuildArgs(s).value, "");
            (NoDouble(t, 2) ==> r == Ok([s])) && (!NoDouble(t, 2) ==> r.Err?)
  {
    var t, tc := SplitLabel(s).value.0, SplitLabel(s).value.1;
    ArgsOfCanonical(q, ninja, s);
    CanonicalParts(q, s);
    SplitParts(s);
    ShortTargetQualifies(t);
    ShortTargetWith(q, t, tc);
    TargetArg(q, ninja, ShortTarget(t), tc);
  }

  /** A label that can be qualified survives, once it is qualified, the trip through build arguments, exactly when its
      target has no "//" past the start. */
  lemma {:induction false} QualifiedRoundTripIff(q: Qualifier, ninja: string -> string, s: string)
    requires CleanCpus(q) && q.QualifyLabel(s, "").Ok?
    ensures var v := q.QualifyLabel(s, "").value;
            q.LabelToBuildArgs(v).Ok? && q.Labels(ninja, q.LabelToBuildArgs(v).value, "") == Ok([v]) <==>
            NoDouble(SplitLabel(s).value.0, 2)
  {
    var v, t := q.QualifyLabel(s, "").value, SplitLabel(s).value.0;
    QualifyTwiceIff(q, s);
    QualifiedTargetIs(q, s);
    QualifiedTarget(t, 2);
    if SplitLabel(v).Ok? { BuildArgsRoundTripIff(q, ninja, v); }
  }

  lemma {:induction false} QualifiedTargetIs(q: Qualifier, s: string)
    requires CleanCpus(q) && q.QualifyLabel(s, "").Ok?
    ensures var v, t, tc := q.QualifyLabel(s, "").value, SplitLabel(s).value.0, SplitLabel(s).value.1;
            if NoDouble(t, 2) || NamesToolchain(q, tc)
            then SplitLabel(v).Ok? && Ok(SplitLabel(v).value.0) == QualifyTarget(t)
            else SplitLabel(v).Err?
  {
    var t, tc := SplitLabel(s).value.0, SplitLabel(s).value.1;
    QualifiedForm(q, s);
    SplitParts(s);
    QualifiedTarget(t, 2);
    if NamesToolchain(q, tc) {
      ToolchainSettles(q, tc);
      SplitSuffixed(QualifyTarget(t).value, q.QualifyToolchain(tc).value);
    } else {
      SplitPlain(QualifyTarget(t).value);
    }
  }

  lemma {:induction false} DefaultAlias(q: Qualifier)
    ensures q.AliasToolchain("default") == Some(q.Default())
  {
    var all := q.Aliases();
    assert |"host"| == 4 && |"default"| == 7;
    assert all[0].0 == "host" && all[0].0 != "default";
    assert all[1..][0] == all[1] && all[1].0 == "default";
    assert FirstWith(all, "default") == FirstWith(all[1..], "default") == Some(all[1].1);
  }

  // ---- which results are canonical

  /** A toolchain in force: none, or a named toolchain label. */
  predicate InForce(tc: string) {
    tc == "" || (StartsWith(tc, "//") && ':' in tc && '(' !in tc)
  }

  lemma {:induction false} ToolchainForm(q: Qualifier, x: string)
    requires CleanCpus(q) && q.QualifyToolchain(x).Ok?
    ensures InForce(q.QualifyToolchain(x).value) && q.QualifyToolchain(x).value != ""
  {
    if StartsWith(x, "//") { QualifiedTarget(x, 2); } else { AliasesSettle(q, x); }
  }

  /** When a label argument gives a canonical label under a toolchain in force. A toolchain of its own must not be the
      default one, or else its target must have no "//" past the start; one it takes over must not be the default one
      and must have no "//" past the start. */
  predicate ArgSettles(q: Qualifier, u: string, tc: string)
    requires SplitLabel(u).Ok?
  {
    var t, own := SplitLabel(u).value.0, SplitLabel(u).value.1;
    if own == "" && tc != "" then tc != q.Default() && NoDouble(tc, 2)
    else NamesToolchain(q, own) || NoDouble(t, 2)
  }

  lemma {:induction false} SplitDoubled(t: string, tc: string)
    requires StartsWith(t, "//") && '(' !in t && !NoDouble(tc, 2)
    ensures SplitLabel(t + "(" + tc + ")").Err?
  {
    var s := t + "(" + tc + ")";
    assert s[|t|] == '(' && forall k :: 0 <= k < |t| ==> s[k] == t[k];
    assert s[..2] == t[..2];
    assert FindChar(s, '(', 2, |s|) == |t|;
    DoubleInSuffix(t, tc);
    FindDouble(s, |t| + 3);
  }

  lemma {:induction false} TakenOverIff(q: Qualifier, t: string, tc: string)
    requires CleanCpus(q) && StartsWith(t, "//") && ':' in t && '(' !in t && InForce(tc) && tc != ""
    ensures Canonical(q, WithToolchain(t, tc)) <==> tc != q.Default() && NoDouble(tc, 2)
  {
    if NoDouble(tc, 2) {
      SplitSuffixed(t, tc);
      SettledStays(q, tc);
      assert |WithToolchain(t, tc)| > |t|;
    } else {
      SplitDoubled(t, tc);
    }
  }

  lemma {:induction false} ArgIsCanonicalIff(q: Qualifier, u: string, tc: string)
    requires CleanCpus(q) && InForce(tc) && q.QualifyLabel(u, tc).Ok?
    ensures Canonical(q, q.QualifyLabel(u, tc).value) <==> ArgSettles(q, u, tc)
  {
    var t, own := SplitLabel(u).value.0, SplitLabel(u).value.1;
    SplitParts(u);
    QualifiedTarget(t, 2);
    if own == "" && tc != "" {
      TakenOverIff(q, QualifyTarget(t).value, tc);
    } else {
      assert q.QualifyLabel(u, "") == q.QualifyLabel(u, tc);
      QualifyTwiceIff(q, u);
    }
  }

  /** Every argument that names a label gives a canonical one, under the toolchain in force where it stands. */
  ghost predicate ArgsSettle(q: Qualifier, ninja: string -> string, args: seq<string>, tc: string)
    requires q.Labels(ninja, args, tc).Ok?
  {
    if args == [] then true
    else
      var arg, rest := args[0], args[1..];
      if StartsWith(arg, TOOLCHAIN) then ArgsSettle(q, ninja, rest, q.QualifyToolchain(arg[|TOOLCHAIN|..]).value)
      else if StartsWith(arg, "--") then
        var next := q.AliasToolchain(arg[2..]).value;
        ArgsSettle(q, ninja, rest, if next == q.Default() then "" else next)
      else if StartsWith(arg, "//") then ArgSettles(q, arg, tc) && ArgsSettle(q, ninja, rest, tc)
      else (ninja(arg) != "" ==> Canonical(q, ninja(arg))) && ArgsSettle(q, ninja, rest, tc)
  }

  ghost predicate AllCanonical(q: Qualifier, found: seq<string>) {
    forall l :: l in found ==> Canonical(q, l)
  }

  lemma AllCanonicalMore(q: Qualifier, l: string, rest: seq<string>)
    ensures AllCanonical(q, [l] + rest) <==> Canonical(q, l) && AllCanonical(q, rest)
  {
    if AllCanonical(q, [l] + rest) {
      assert l in [l] + rest;
      forall x | x in rest ensures Canonical(q, x) { assert x in [l] + rest; }
    }
  }

  /** For every argument list that is accepted, the labels found are all canonical if and only if every argument
      settles; so a default toolchain given by its label, or a toolchain with "//" past its start, spoils them. */
  lemma {:induction false} LabelsAreCanonicalIff(q: Qualifier, ninja: string -> string, args: seq<string>, tc: string)
    requires CleanCpus(q) && InForce(tc) && q.Labels(ninja, args, tc).Ok?
    ensures AllCanonical(q, q.Labels(ninja, args, tc).value) <==> ArgsSettle(q, ninja, args, tc)
    decreases |args|
  {
    if args != [] {
      var arg, rest := args[0], args[1..];
      if StartsWith(arg, TOOLCHAIN) {
        ToolchainForm(q, arg[|TOOLCHAIN|..]);
        LabelsAreCanonicalIff(q, ninja, rest, q.QualifyToolchain(arg[|TOOLCHAIN|..]).value);
      } else if StartsWith(arg, "--") {
        var next := q.AliasToolchain(arg[2..]).value;
        AliasesSettle(q, arg[2..]);
        LabelsAreCanonicalIff(q, ninja, rest, if next == q.Default() then "" else next);
      } else {
        LabelsAreCanonicalIff(q, ninja, rest, tc);
        OneLabelMore(q, ninja, args, tc);
      }
    }
  }

  lemma {:induction false} OneLabelMore(q: Qualifier, ninja: string -> string, args: seq<string>, tc: string)
    requires CleanCpus(q) && InForce(tc) && args != [] && q.Labels(ninja, args, tc).Ok?
    requires !StartsWith(args[0], TOOLCHAIN) && !StartsWith(args[0], "--")
    requires AllCanonical(q, q.Labels(ninja, args[1..], tc).value) <==> ArgsSettle(q, ninja, args[1..], tc)
    ensures AllCanonical(q, q.Labels(ninja, args, tc).value) <==> ArgsSettle(q, ninja, args, tc)
  {
    var more := q.Labels(ninja, args[1..], tc).value;
    if StartsWith(args[0], "//") {
      ArgIsCanonicalIff(q, args[0], tc);
      AllCanonicalMore(q, q.QualifyLabel(args[0], tc).value, more);
    } else if ninja(args[0]) != "" {
      AllCanonicalMore(q, ninja(args[0]), more);
    }
  }

  /** One label after one toolchain option: the label keeps the toolchain, and is canonical exactly when that is not
      the default one and has no "//" past the start. */
  lemma {:induction false} ToolchainOptionIff(q: Qualifier, ninja: string -> string, x: string, t: string)
    requires CleanCpus(q) && Canonical(q, t) && '(' !in t && q.QualifyToolchain(x).Ok?
    ensures var tc := q.QualifyToolchain(x).value;
            && q.Labels(ninja, [TOOLCHAIN + x, t], "") == Ok([WithToolchain(t, tc)])
            && (Canonical(q, WithToolchain(t, tc)) <==> tc != q.Default() && NoDouble(tc, 2))
  {
    var tc := q.QualifyToolchain(x).value;
    CanonicalParts(q, t);
    SplitParts(t);
    assert SplitLabel(t) == Ok((t, ""));
    ToolchainForm(q, x);
    ToolchainArg(q, ninja, x, t);
    QualifiedTarget(t, 2);
    TargetArg(q, ninja, t, tc);
    TakenOverIff(q, t, tc);
  }

  lemma {:induction false} DefaultByAlias(q: Qualifier, ninja: string -> string, t: string)
    requires CleanCpus(q) && Canonical(q, t) && '(' !in t
    ensures q.Labels(ninja, ["--" + "default", t], "") == Ok([t])
  {
    CanonicalParts(q, t);
    SplitParts(t);
    DefaultAlias(q);
    AliasArg(q, ninja, "default", t);
    QualifiedTarget(t, 2);
    TargetArg(q, ninja, t, "");
  }

  /** Two options that spoil every label: the default toolchain by its label, though its alias does no harm, and a
      toolchain with "//" in it. */
  lemma {:induction false} OptionsThatSpoil(q: Qualifier, ninja: string -> string, t: string)
    requires CleanCpus(q) && Canonical(q, t) && '(' !in t
    ensures q.Labels(ninja, ["--default", t], "") == Ok([t])
    ensures q.Labels(ninja, [TOOLCHAIN + q.Default(), t], "") == Ok([WithToolchain(t, q.Default())])
    ensures !Canonical(q, WithToolchain(t, q.Default()))
    ensures q.Labels(ninja, [TOOLCHAIN + "//a//b:b", t], "") == Ok([WithToolchain(t, "//a//b:b")])
    ensures !Canonical(q, WithToolchain(t, "//a//b:b"))
  {
    DefaultByAlias(q, ninja, t);
    assert "--" + "default" == "--default";
    DefaultSettles(q);
    SettledStays(q, q.Default());
    ToolchainOptionIff(q, ninja, q.Default(), t);
    DoubledToolchain(q);
    ToolchainOptionIff(q, ninja, "//a//b:b", t);
  }

  lemma {:induction false} DoubledToolchain(q: Qualifier)
    ensures q.QualifyToolchain("//a//b:b") == Ok("//a//b:b") && !NoDouble("//a//b:b", 2)
  {
    var x := "//a//b:b";
    assert x[..2] == "//" && x[3] == '/' && x[4] == '/' && x[6] == ':';
  }
}
