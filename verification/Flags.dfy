/** Rewriting command-line flags: splitting fused flags and back, and sifting known flags out. */
module Flags {
  import opened Text

  // ---- fused flags

  /** The first flag that the token starts with and that leaves a value over. */
  function FusedFlag(tok: string, flags: seq<string>): (r: Option<string>)
    ensures r.Some? ==> StartsWith(tok, r.value) && |tok| > |r.value| && r.value in flags
  {
    if flags == [] then None
    else if StartsWith(tok, flags[0]) && |tok| > |flags[0]| then Some(flags[0])
    else FusedFlag(tok, flags[1..])
  }

  /** A token as one or two. */
  function Pieces(tok: string, flags: seq<string>): seq<string> {
    var f := FusedFlag(tok, flags);
    if f.Some? then [f.value, tok[|f.value|..]] else [tok]
  }

  function Expand(command: seq<string>, flags: seq<string>): seq<string> {
    if command == [] then [] else Pieces(command[0], flags) + Expand(command[1..], flags)
  }

  /** The fused command, with a flag that waits for its value, or "" for none. A flag at the end is lost. */
  function Fuse(command: seq<string>, flags: seq<string>, prefix: string): seq<string> {
    if command == [] then []
    else if prefix != "" then [prefix + command[0]] + Fuse(command[1..], flags, "")
    else if command[0] in flags then Fuse(command[1..], flags, command[0])
    else [command[0]] + Fuse(command[1..], flags, "")
  }

  method ExpandToken(tok: string, flags: seq<string>) returns (ps: seq<string>)
    ensures ps == Pieces(tok, flags)
  {
    assert flags[0..] == flags;
    for j := 0 to |flags|
      invariant FusedFlag(tok, flags) == FusedFlag(tok, flags[j..])
    {
      assert flags[j..][1..] == flags[j + 1..];
      if StartsWith(tok, flags[j]) && |tok| > |flags[j]| { return [flags[j], tok[|flags[j]|..]]; }
    }
    ps := [tok];
  }

  method ExpandFusedFlags(command: seq<string>, flags: seq<string>) returns (r: seq<string>)
    ensures r == Expand(command, flags)
  {
    r := [];
    assert command[0..] == command;
    for i := 0 to |command|
      invariant Expand(command, flags) == r + Expand(command[i..], flags)
    {
      assert command[i..][1..] == command[i + 1..];
      var ps := ExpandToken(command[i], flags);
      assert r + (ps + Expand(command[i + 1..], flags)) == r + ps + Expand(command[i + 1..], flags);
      r := r + ps;
    }
  }

  method FuseExpandedFlags(command: seq<string>, flags: seq<string>) returns (r: seq<string>)
    ensures r == Fuse(command, flags, "")
  {
    r := [];
    var prefix := "";
    assert command[0..] == command;
    for i := 0 to |command|
      invariant Fuse(command, flags, "") == r + Fuse(command[i..], flags, prefix)
    {
      assert command[i..][1..] == command[i + 1..];
      ghost var rest := Fuse(command[i + 1..], flags, "");
      if prefix != "" {
        assert r + ([prefix + command[i]] + rest) == r + [prefix + command[i]] + rest;
        r := r + [prefix + command[i]];
        prefix := "";
      } else if command[i] in flags {
        prefix := command[i];
      } else {
        assert r + ([command[i]] + rest) == r + [command[i]] + rest;
        r := r + [command[i]];
      }
    }
  }

  /** A token that is just a flag, and that expansion leaves whole. */
  predicate Bare(tok: string, flags: seq<string>) {
    tok in flags && FusedFlag(tok, flags).None?
  }

  /** Fusing the two pieces of an expanded token gives it back. */
  lemma {:induction false} FusesBack(tok: string, flags: seq<string>, rest: seq<string>)
    requires "" !in flags && !Bare(tok, flags)
    ensures Fuse(Pieces(tok, flags) + rest, flags, "") == [tok] + Fuse(rest, flags, "")
  {
    var ps, f := Pieces(tok, flags), FusedFlag(tok, flags);
    if f.Some? {
      var value := tok[|f.value|..];
      assert (ps + rest)[1..] == [value] + rest && ([value] + rest)[1..] == rest;
      assert tok == f.value + value;
    } else {
      assert (ps + rest)[1..] == rest;
    }
  }

  /** Fusing never gives more tokens than expansion was given, counting the flag that waits. */
  lemma {:induction false} FuseIsShort(command: seq<string>, flags: seq<string>, prefix: string)
    ensures |Fuse(Expand(command, flags), flags, prefix)| <= |command| + if prefix == "" then 0 else 1
    decreases |command|
  {
    if command != [] {
      var tok, rest := command[0], Expand(command[1..], flags);
      var ps, f := Pieces(tok, flags), FusedFlag(tok, flags);
      FuseIsShort(command[1..], flags, "");
      FuseIsShort(command[1..], flags, tok);
      if f.Some? {
        var value := tok[|f.value|..];
        FuseIsShort(command[1..], flags, value);
        assert (ps + rest)[1..] == [value] + rest && ([value] + rest)[1..] == rest;
      } else {
        assert (ps + rest)[1..] == rest;
      }
    }
  }

  /** A bare flag swallows what follows it. */
  lemma {:induction false} BareIsLost(command: seq<string>, flags: seq<string>)
    requires "" !in flags && command != [] && Bare(command[0], flags)
    ensures Fuse(Expand(command, flags), flags, "") != command
  {
    var tok, rest := command[0], Expand(command[1..], flags);
    assert ([tok] + rest)[1..] == rest;
    if rest != [] && rest[0] == "" {
      var next := command[1];
      assert Pieces(next, flags) == [next];
      assert rest[1..] == Expand(command[2..], flags) by { assert command[1..][1..] == command[2..]; }
      FuseIsShort(command[2..], flags, "");
    }
  }

  /** Fusing undoes expanding exactly when no token is a bare flag. */
  lemma {:induction false} FuseUndoesExpandIff(command: seq<string>, flags: seq<string>)
    requires "" !in flags
    ensures Fuse(Expand(command, flags), flags, "") == command <==> forall tok :: tok in command ==> !Bare(tok, flags)
  {
    if command != [] {
      FuseUndoesExpandIff(command[1..], flags);
      assert command == [command[0]] + command[1..];
      if Bare(command[0], flags) {
        BareIsLost(command, flags);
      } else {
        FusesBack(command[0], flags, Expand(command[1..], flags));
      }
    }
  }

  // ---- sifting

  datatype ForwardedFlag = ForwardedFlag(name: string, hasOptarg: bool, mappedName: string)

  /** What becomes of one token: it stays, it is forwarded as some text, or it is dropped. */
  datatype Fate = Stays | Forwarded(text: string) | Dropped

  /** The forwarder's table, by flag name. */
  type Table = map<string, ForwardedFlag>

  function BeforeEquals(tok: string): string {
    var i := FindChar(tok, '=', 0, |tok|);
    if i < 0 then tok else tok[..i]
  }

  function AfterEquals(tok: string): string {
    var i := FindChar(tok, '=', 0, |tok|);
    if i < 0 then "" else tok[i + 1..]
  }

  /** A flag of the table, alone or with `=` and a value. */
  predicate Known(tab: Table, tok: string) {
    tok in tab || ('=' in tok && BeforeEquals(tok) in tab)
  }

  function FateOf(tab: Table, tok: string, optarg: bool): Fate {
    if optarg then Forwarded(tok)
    else if tok in tab then
      if tab[tok].mappedName != "" then Forwarded(tab[tok].mappedName) else Dropped
    else if '=' in tok && BeforeEquals(tok) in tab then
      var mapped := tab[BeforeEquals(tok)].mappedName;
      Forwarded((if mapped != "" then mapped + "=" else "") + AfterEquals(tok))
    else Stays
  }

  /** The token after this one is its value. */
  predicate WantsValue(tab: Table, tok: string, optarg: bool) {
    !optarg && tok in tab && tab[tok].hasOptarg
  }

  function Fates(tab: Table, argv: seq<string>, optarg: bool): (fates: seq<Fate>)
    ensures |fates| == |argv|
  {
    if argv == [] then []
    else [FateOf(tab, argv[0], optarg)] + Fates(tab, argv[1..], WantsValue(tab, argv[0], optarg))
  }

  function Texts(fates: seq<Fate>): seq<string> {
    if fates == [] then []
    else (if fates[0].Forwarded? then [fates[0].text] else []) + Texts(fates[1..])
  }

  function Staying(argv: seq<string>, fates: seq<Fate>): seq<string>
    requires |argv| == |fates|
  {
    if argv == [] then [] else (if fates[0].Stays? then [argv[0]] else []) + Staying(argv[1..], fates[1..])
  }

  function ForwardedOf(tab: Table, argv: seq<string>, optarg: bool): seq<string> {
    Texts(Fates(tab, argv, optarg))
  }

  function FilteredOf(tab: Table, argv: seq<string>, optarg: bool): seq<string> {
    Staying(argv, Fates(tab, argv, optarg))
  }

  lemma {:induction false} SiftStep(tab: Table, argv: seq<string>, optarg: bool)
    requires argv != []
    ensures var fate, rest, next := FateOf(tab, argv[0], optarg), argv[1..], WantsValue(tab, argv[0], optarg);
            && ForwardedOf(tab, argv, optarg) ==
               (if fate.Forwarded? then [fate.text] else []) + ForwardedOf(tab, rest, next)
            && FilteredOf(tab, argv, optarg) == (if fate.Stays? then [argv[0]] else []) + FilteredOf(tab, rest, next)
  {
  }

  method Sift(tab: Table, argv: seq<string>) returns (forwarded: seq<string>, filtered: seq<string>)
    ensures forwarded == ForwardedOf(tab, argv, false) && filtered == FilteredOf(tab, argv, false)
  {
    forwarded, filtered := [], [];
    var optarg := false;
    assert argv[0..] == argv;
    for i := 0 to |argv|
      invariant ForwardedOf(tab, argv, false) == forwarded + ForwardedOf(tab, argv[i..], optarg)
      invariant FilteredOf(tab, argv, false) == filtered + FilteredOf(tab, argv[i..], optarg)
    {
      var tok := argv[i];
      assert argv[i..][1..] == argv[i + 1..];
      SiftStep(tab, argv[i..], optarg);
      ghost var next := WantsValue(tab, tok, optarg);
      Regroup(forwarded, tab, tok, optarg, ForwardedOf(tab, argv[i + 1..], next));
      assert filtered + ([tok] + FilteredOf(tab, argv[i + 1..], next)) ==
             filtered + [tok] + FilteredOf(tab, argv[i + 1..], next);
      if optarg {
        forwarded := forwarded + [tok];
        optarg := false;
      } else if tok in tab {
        if tab[tok].mappedName != "" { forwarded := forwarded + [tab[tok].mappedName]; }
        optarg := tab[tok].hasOptarg;
      } else if '=' in tok && BeforeEquals(tok) in tab {
        var mapped := tab[BeforeEquals(tok)].mappedName;
        var prefix := if mapped != "" then mapped + "=" else "";
        forwarded := forwarded + [prefix + AfterEquals(tok)];
      } else {
        filtered := filtered + [tok];
      }
    }
  }

  lemma Regroup(a: seq<string>, tab: Table, tok: string, optarg: bool, rest: seq<string>)
    ensures var fate := FateOf(tab, tok, optarg);
            var here := if fate.Forwarded? then [fate.text] else [];
            a + (here + rest) == a + here + rest && a + [] == a && [] + rest == rest
  {
  }

  lemma {:induction false} FilteredIsUnknown(tab: Table, argv: seq<string>, optarg: bool)
    ensures forall tok :: tok in FilteredOf(tab, argv, optarg) ==> !Known(tab, tok) && tok in argv
    decreases |argv|
  {
    if argv != [] {
      SiftStep(tab, argv, optarg);
      FilteredIsUnknown(tab, argv[1..], WantsValue(tab, argv[0], optarg));
    }
  }

  lemma {:induction false} UnknownStays(tab: Table, argv: seq<string>)
    requires forall tok :: tok in argv ==> !Known(tab, tok)
    ensures ForwardedOf(tab, argv, false) == [] && FilteredOf(tab, argv, false) == argv
  {
    if argv != [] {
      SiftStep(tab, argv, false);
      assert argv[0] in argv;
      UnknownStays(tab, argv[1..]);
      assert argv == [argv[0]] + argv[1..];
    }
  }

  /** Sifting what was left finds nothing more. */
  lemma {:induction false} SiftingAgainFindsNothing(tab: Table, argv: seq<string>)
    ensures var left := FilteredOf(tab, argv, false);
            ForwardedOf(tab, left, false) == [] && FilteredOf(tab, left, false) == left
  {
    FilteredIsUnknown(tab, argv, false);
    UnknownStays(tab, FilteredOf(tab, argv, false));
  }

  /** s is a and b merged, each in order. */
  ghost predicate Merges(s: seq<string>, a: seq<string>, b: seq<string>) {
    if s == [] then a == [] && b == []
    else
      || (a != [] && s[0] == a[0] && Merges(s[1..], a[1..], b))
      || (b != [] && s[0] == b[0] && Merges(s[1..], a, b[1..]))
  }

  /** The command with its known flags renamed in place; a flag whose new name is empty goes. */
  function Renamed(tab: Table, argv: seq<string>, optarg: bool): seq<string> {
    if argv == [] then []
    else
      var fate := FateOf(tab, argv[0], optarg);
      (if fate.Stays? then [argv[0]] else if fate.Forwarded? then [fate.text] else []) +
      Renamed(tab, argv[1..], WantsValue(tab, argv[0], optarg))
  }

  /** Whatever the new names, the renamed command is the forwarded tokens and the rest merged: each token is in exactly
      one of the two, in order. */
  lemma {:induction false} SiftMerges(tab: Table, argv: seq<string>, optarg: bool)
    ensures Merges(Renamed(tab, argv, optarg), ForwardedOf(tab, argv, optarg), FilteredOf(tab, argv, optarg))
    decreases |argv|
  {
    if argv != [] {
      var fate, next := FateOf(tab, argv[0], optarg), WantsValue(tab, argv[0], optarg);
      var s, a, b := Renamed(tab, argv, optarg), ForwardedOf(tab, argv, optarg), FilteredOf(tab, argv, optarg);
      var s1 := Renamed(tab, argv[1..], next);
      var a1, b1 := ForwardedOf(tab, argv[1..], next), FilteredOf(tab, argv[1..], next);
      SiftStep(tab, argv, optarg);
      SiftMerges(tab, argv[1..], next);
      if fate.Stays? {
        assert s[1..] == s1 && a == a1 && b[1..] == b1;
      } else if fate.Forwarded? {
        assert s[1..] == s1 && a[1..] == a1 && b == b1;
      } else {
        assert s == s1 && a == a1 && b == b1;
      }
    }
  }

  /** The flags keep their names. */
  predicate KeepsNames(tab: Table) {
    forall k :: k in tab ==> tab[k].mappedName == k && k != ""
  }

  lemma {:induction false} FateOfNamed(tab: Table, tok: string, optarg: bool)
    requires KeepsNames(tab)
    ensures FateOf(tab, tok, optarg) == if optarg || Known(tab, tok) then Forwarded(tok) else Stays
  {
  }

  lemma {:induction false} KeepsNamesRenamesNothing(tab: Table, argv: seq<string>, optarg: bool)
    requires KeepsNames(tab)
    ensures Renamed(tab, argv, optarg) == argv
    decreases |argv|
  {
    if argv != [] {
      FateOfNamed(tab, argv[0], optarg);
      KeepsNamesRenamesNothing(tab, argv[1..], WantsValue(tab, argv[0], optarg));
      assert argv == [argv[0]] + argv[1..];
    }
  }

  /** Sifting takes a command apart into its known flags with their values and the rest, both in order. */
  lemma {:induction false} SiftSeparates(tab: Table, argv: seq<string>, optarg: bool)
    requires KeepsNames(tab)
    ensures Merges(argv, ForwardedOf(tab, argv, optarg), FilteredOf(tab, argv, optarg))
  {
    KeepsNamesRenamesNothing(tab, argv, optarg);
    SiftMerges(tab, argv, optarg);
  }

  /** The same flags, without renaming. */
  function KeepNames(tab: Table): Table {
    map k | k in tab :: tab[k].(mappedName := k)
  }

  lemma {:induction false} SameKnown(tab: Table, tok: string, optarg: bool)
    requires "" !in tab
    ensures KeepsNames(KeepNames(tab))
    ensures WantsValue(KeepNames(tab), tok, optarg) == WantsValue(tab, tok, optarg)
    ensures FateOf(KeepNames(tab), tok, optarg) == if FateOf(tab, tok, optarg).Stays? then Stays else Forwarded(tok)
  {
  }

  /** Renaming while sifting is sifting first and renaming what was sifted out. */
  lemma {:induction false} SiftInTwoStages(tab: Table, argv: seq<string>, optarg: bool)
    requires "" !in tab
    ensures FilteredOf(KeepNames(tab), argv, optarg) == FilteredOf(tab, argv, optarg)
    ensures var out := ForwardedOf(KeepNames(tab), argv, optarg);
            ForwardedOf(tab, out, optarg) == ForwardedOf(tab, argv, optarg) && FilteredOf(tab, out, optarg) == []
    decreases |argv|
  {
    if argv != [] {
      var tok, rest, next := argv[0], argv[1..], WantsValue(tab, argv[0], optarg);
      SiftStep(tab, argv, optarg);
      SiftStep(KeepNames(tab), argv, optarg);
      SameKnown(tab, tok, optarg);
      SiftInTwoStages(tab, rest, next);
      var out, more := ForwardedOf(KeepNames(tab), argv, optarg), ForwardedOf(KeepNames(tab), rest, next);
      if FateOf(tab, tok, optarg).Stays? {
        assert out == more && ForwardedOf(tab, argv, optarg) == ForwardedOf(tab, rest, next);
      } else {
        assert out[0] == tok && out[1..] == more;
        SiftStep(tab, out, optarg);
      }
    }
  }
}
