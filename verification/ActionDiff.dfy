/** Tracing why one output differs between two builds: the mutually recursive walk from an
    output to the actions that produced it and on to their differing inputs. */
module ActionDiff {
  /** A path by its components; "." has none. */
  type Path = seq<string>

  /** A log record: the digests of its outputs, its action ("" if it ran locally) and the working
      directory of its command. */
  datatype Record = Record(outputDigests: map<Path, string>, actionDigest: string, workingDir: Path)

  /** What remotetool shows of an action. */
  datatype Action = Action(command: seq<string>, platform: map<string, string>, inputs: map<Path, string>)

  datatype RootCause =
    | NotInLeftLog(path: Path)
    | NotInRightLog(path: Path)
    | NoLeftAction(path: Path)
    | NoRightAction(path: Path)
    | CommandsDiffer(left: string, right: string)
    | PlatformsDiffer(left: string, right: string)
    | InputSetsDiffer(left: string, right: string)
    | SourceDiffers(input: Path, leftDigest: string, rightDigest: string)

  /** The two logs indexed by output (and the left one by action), and the action behind each digest. */
  datatype Logs = Logs(
    left: map<Path, Record>, right: map<Path, Record>, leftByAction: map<string, Record>,
    show: string -> Action)

  /** `output_file_digests[path]`: a missing key reads as "", as with an action that ran locally. */
  function DigestOf(r: Record, p: Path): string {
    if p in r.outputDigests then r.outputDigests[p] else ""
  }

  /** `wd in path.parents` */
  predicate Inside(wd: Path, path: Path) {
    |wd| < |path| && path[..|wd|] == wd
  }

  // ---- what an action pair says

  function ChangedInputs(a: Action, b: Action): set<Path> {
    set x | x in a.inputs && x in b.inputs && a.inputs[x] != b.inputs[x]
  }

  /** Same command, platform and input set: only then are the inputs followed. */
  predicate SameShape(a: Action, b: Action) {
    a.command == b.command && a.platform == b.platform && a.inputs.Keys == b.inputs.Keys
  }

  /** The intermediate outputs to follow, relative to the working directory. */
  function Children(a: Action, b: Action, wd: Path): set<Path> {
    if SameShape(a, b) then set x | x in ChangedInputs(a, b) && Inside(wd, x) :: x[|wd|..] else {}
  }

  function SourceCause(a: Action, b: Action, x: Path): RootCause
    requires x in ChangedInputs(a, b)
  {
    SourceDiffers(x, a.inputs[x], b.inputs[x])
  }

  function PairCauses(g: Logs, l: string, r: string, wd: Path): set<RootCause> {
    var a, b := g.show(l), g.show(r);
    if SameShape(a, b) then
      set x | x in ChangedInputs(a, b) && !Inside(wd, x) :: SourceCause(a, b, x)
    else
      (if a.command != b.command then {CommandsDiffer(l, r)} else {}) +
      (if a.platform != b.platform then {PlatformsDiffer(l, r)} else {}) +
      (if a.inputs.Keys != b.inputs.Keys then {InputSetsDiffer(l, r)} else {})
  }

  // ---- what an output says

  /** The output was produced remotely on both sides, with different contents. */
  predicate Differs(g: Logs, p: Path) {
    && p in g.left && p in g.right
    && DigestOf(g.left[p], p) != DigestOf(g.right[p], p)
    && g.left[p].actionDigest != "" && g.right[p].actionDigest != ""
  }

  /** The edges of the search. */
  function Succ(g: Logs, p: Path): set<Path> {
    if Differs(g, p) then
      Children(g.show(g.left[p].actionDigest), g.show(g.right[p].actionDigest), g.left[p].workingDir)
    else {}
  }

  /** The root causes found at one output. */
  function Causes(g: Logs, p: Path): set<RootCause> {
    if p !in g.left then {NotInLeftLog(p)}
    else if p !in g.right then {NotInRightLog(p)}
    else if DigestOf(g.left[p], p) == DigestOf(g.right[p], p) then {}
    else if g.left[p].actionDigest == "" then {NoLeftAction(p)}
    else if g.right[p].actionDigest == "" then {NoRightAction(p)}
    else PairCauses(g, g.left[p].actionDigest, g.right[p].actionDigest, g.left[p].workingDir)
  }

  function AllCauses(g: Logs, s: set<Path>): set<RootCause> {
    set p, c | p in s && c in Causes(g, p) :: c
  }

  /** Nothing is reported at the output and nothing is followed from it. */
  predicate Silent(g: Logs, p: Path) {
    Causes(g, p) == {} && Succ(g, p) == {}
  }

  /** The trace passes over an output in silence exactly when both logs have it and either its digests agree, or two
      actions with the same command, platform and inputs made it. */
  lemma SilentIff(g: Logs, p: Path)
    ensures Silent(g, p) <==>
            && p in g.left && p in g.right
            && (|| DigestOf(g.left[p], p) == DigestOf(g.right[p], p)
                || (&& g.left[p].actionDigest != "" && g.right[p].actionDigest != ""
                    && var a, b := g.show(g.left[p].actionDigest), g.show(g.right[p].actionDigest);
                       SameShape(a, b) && ChangedInputs(a, b) == {}))
  {
    if Differs(g, p) {
      var wd := g.left[p].workingDir;
      var a, b := g.show(g.left[p].actionDigest), g.show(g.right[p].actionDigest);
      if SameShape(a, b) && ChangedInputs(a, b) != {} {
        var x :| x in ChangedInputs(a, b);
        if Inside(wd, x) { assert x[|wd|..] in Succ(g, p); } else { assert SourceCause(a, b, x) in Causes(g, p); }
      }
    }
  }

  /** So an output that ran locally on both sides, without a digest in either log, counts as matching. */
  lemma LocalOutputsMatch(g: Logs, p: Path)
    requires p in g.left && p in g.right
    requires p !in g.left[p].outputDigests && p !in g.right[p].outputDigests
    ensures Silent(g, p) && forall q :: Reaches(g, p, q) <==> q == p
  {
    SilentIff(g, p);
    SilentReachesItself(g, p);
  }

  // ---- reachability

  ghost predicate IsTrace(g: Logs, t: seq<Path>) {
    t != [] && forall i :: 0 <= i < |t| - 1 ==> t[i + 1] in Succ(g, t[i])
  }

  ghost predicate Reaches(g: Logs, p: Path, q: Path) {
    exists t :: IsTrace(g, t) && t[0] == p && t[|t| - 1] == q
  }

  ghost predicate ReachedFrom(g: Logs, roots: set<Path>, q: Path) {
    exists p :: p in roots && Reaches(g, p, q)
  }

  ghost predicate Closed(g: Logs, s: set<Path>, within: set<Path>) {
    forall p :: p in s ==> Succ(g, p) <= within
  }

  lemma ReachesSelf(g: Logs, p: Path)
    ensures Reaches(g, p, p)
  {
    assert IsTrace(g, [p]);
  }

  lemma ReachesThrough(g: Logs, p: Path, c: Path, q: Path)
    requires c in Succ(g, p) && Reaches(g, c, q)
    ensures Reaches(g, p, q)
  {
    var t :| IsTrace(g, t) && t[0] == c && t[|t| - 1] == q;
    var t2 := [p] + t;
    forall i | 0 <= i < |t2| - 1
      ensures t2[i + 1] in Succ(g, t2[i])
    {
      if i > 0 { assert t[i - 1 + 1] in Succ(g, t[i - 1]); }
    }
    assert IsTrace(g, t2) && t2[0] == p && t2[|t2| - 1] == q;
  }

  lemma {:induction false} ClosedHoldsTrace(g: Logs, s: set<Path>, t: seq<Path>)
    requires Closed(g, s, s) && IsTrace(g, t) && t[0] in s
    ensures t[|t| - 1] in s
  {
    if |t| > 1 {
      var init := t[..|t| - 1];
      forall i | 0 <= i < |init| - 1
        ensures init[i + 1] in Succ(g, init[i])
      {
        assert t[i + 1] in Succ(g, t[i]);
      }
      ClosedHoldsTrace(g, s, init);
      assert t[|t| - 2 + 1] in Succ(g, t[|t| - 2]);
    }
  }

  lemma ClosedHoldsReachable(g: Logs, s: set<Path>, p: Path, q: Path)
    requires Closed(g, s, s) && p in s && Reaches(g, p, q)
    ensures q in s
  {
    var t :| IsTrace(g, t) && t[0] == p && t[|t| - 1] == q;
    ClosedHoldsTrace(g, s, t);
  }

  lemma SilentReachesItself(g: Logs, p: Path)
    requires Silent(g, p)
    ensures forall q :: Reaches(g, p, q) <==> q == p
  {
    ReachesSelf(g, p);
    forall q | Reaches(g, p, q) ensures q == p { ClosedHoldsReachable(g, {p}, p, q); }
  }

  // ---- the walk

  /** The set passed along by reference, with the order in which paths were expanded. */
  class Visited {
    var paths: set<Path>
    ghost var order: seq<Path>

    constructor ()
      ensures paths == {} && order == []
    {
      paths := {};
      order := [];
    }

    ghost predicate OnceEach()
      reads this
    {
      && (forall p :: p in order <==> p in paths)
      && forall i, j :: 0 <= i < j < |order| ==> order[i] != order[j]
    }

    method Add(p: Path)
      requires OnceEach() && p !in paths
      modifies this
      ensures OnceEach() && paths == old(paths) + {p} && order == old(order) + [p]
    {
      paths := paths + {p};
      order := order + [p];
    }
  }

  /** What a part of the walk has done: the newly visited paths were reached from `roots`, are finished,
      and the causes are theirs and `own`. */
  ghost predicate Walked(
    g: Logs, roots: set<Path>, before: set<Path>, after: set<Path>, own: set<RootCause>, causes: seq<RootCause>)
  {
    && before <= after
    && (forall q :: q in after - before ==> ReachedFrom(g, roots, q))
    && Closed(g, after - before, after)
    && (forall c :: c in causes <==> c in own + AllCauses(g, after - before))
  }

  /** One part of the walk after another. */
  lemma WalkedThen(g: Logs, roots1: set<Path>, roots2: set<Path>, s1: set<Path>, s2: set<Path>, s3: set<Path>,
                   own1: set<RootCause>, own2: set<RootCause>, causes1: seq<RootCause>, causes2: seq<RootCause>)
    requires Walked(g, roots1, s1, s2, own1, causes1) && Walked(g, roots2, s2, s3, own2, causes2)
    ensures Walked(g, roots1 + roots2, s1, s3, own1 + own2, causes1 + causes2)
  {
    assert s3 - s1 == (s2 - s1) + (s3 - s2);
    forall q | q in s3 - s1
      ensures ReachedFrom(g, roots1 + roots2, q)
    {
      if q in s2 {
        var p :| p in roots1 && Reaches(g, p, q);
        assert p in roots1 + roots2;
      } else {
        var p :| p in roots2 && Reaches(g, p, q);
        assert p in roots1 + roots2;
      }
    }
  }

  lemma ReachedUp(g: Logs, p: Path, q: Path)
    requires (q == p || ReachedFrom(g, Succ(g, p), q))
    ensures ReachedFrom(g, {p}, q)
  {
    if q == p {
      ReachesSelf(g, p);
    } else {
      var c :| c in Succ(g, p) && Reaches(g, c, q);
      ReachesThrough(g, p, c, q);
    }
    assert p in {p} && Reaches(g, p, q);
  }

  lemma CausesUp(g: Logs, p: Path, below: set<Path>, causes: seq<RootCause>)
    requires forall c :: c in causes <==> c in Causes(g, p) + AllCauses(g, below)
    ensures forall c :: c in causes <==> c in AllCauses(g, {p} + below)
  {
  }

  /** An output and the walk through its children make the walk from the output. */
  lemma WalkedUp(g: Logs, p: Path, s1: set<Path>, s2: set<Path>, causes: seq<RootCause>)
    requires p !in s1
    requires Walked(g, Succ(g, p), s1 + {p}, s2, Causes(g, p), causes)
    requires Succ(g, p) <= s2
    ensures Walked(g, {p}, s1, s2, {}, causes)
  {
    var below := s2 - (s1 + {p});
    assert s2 - s1 == {p} + below;
    CausesUp(g, p, below, causes);
    forall q | q in s2 - s1
      ensures ReachedFrom(g, {p}, q) && Succ(g, q) <= s2
    {
      ReachedUp(g, p, q);
    }
  }

  /** Inputs under the working directory, relative to it. */
  function Kids(wd: Path, inputs: set<Path>): set<Path> {
    set x | x in inputs && Inside(wd, x) :: x[|wd|..]
  }

  function SourceCauses(a: Action, b: Action, wd: Path, inputs: set<Path>): set<RootCause> {
    set x | x in ChangedInputs(a, b) && x in inputs && !Inside(wd, x) :: SourceCause(a, b, x)
  }

  /** What bounds the recursion: only outputs in the left log are ever expanded. */
  function Unvisited(g: Logs, visited: set<Path>): nat {
    |g.left.Keys - visited|
  }

  lemma {:induction false} FewerUnvisited(g: Logs, before: set<Path>, after: set<Path>)
    requires before <= after
    ensures Unvisited(g, after) <= Unvisited(g, before)
  {
    var all := g.left.Keys;
    assert all - before == (all - after) + ((all - before) * after);
    assert (all - after) !! ((all - before) * after);
  }

  lemma {:induction false} OneFewerUnvisited(g: Logs, before: set<Path>, p: Path)
    requires p in g.left && p !in before
    ensures Unvisited(g, before + {p}) < Unvisited(g, before)
  {
    assert g.left.Keys - (before + {p}) == (g.left.Keys - before) - {p};
  }

  lemma SomeCause(causes: seq<RootCause>)
    ensures causes != [] ==> exists c :: c in causes
  {
    if causes != [] { assert causes[0] in causes; }
  }

  class ActionDiffer {
    const logs: Logs

    constructor (logs: Logs)
      ensures this.logs == logs
    {
      this.logs := logs;
    }

    method TraceArtifactFrom(filepath: Path, visited: Visited) returns (causes: seq<RootCause>)
      requires visited.OnceEach()
      modifies visited
      ensures visited.OnceEach()
      ensures filepath in visited.paths
      ensures Walked(logs, {filepath}, old(visited.paths), visited.paths, {}, causes)
      decreases Unvisited(logs, visited.paths), 0, 0
    {
      ghost var before := visited.paths;
      if filepath in visited.paths {
        return [];
      }
      visited.Add(filepath);
      if filepath !in logs.left {
        causes := [NotInLeftLog(filepath)];
      } else if filepath !in logs.right {
        causes := [NotInRightLog(filepath)];
      } else {
        var left, right := logs.left[filepath], logs.right[filepath];
        if DigestOf(left, filepath) == DigestOf(right, filepath) {
          causes := [];
        } else if left.actionDigest == "" {
          causes := [NoLeftAction(filepath)];
        } else if right.actionDigest == "" {
          causes := [NoRightAction(filepath)];
        } else {
          OneFewerUnvisited(logs, before, filepath);
          causes := TraceActionsFrom(left.actionDigest, right.actionDigest, left.workingDir, visited);
        }
      }
      WalkedUp(logs, filepath, before, visited.paths, causes);
    }

    method TraceActionsFrom(left: string, right: string, wd: Path, visited: Visited) returns (causes: seq<RootCause>)
      requires visited.OnceEach()
      modifies visited
      ensures visited.OnceEach()
      ensures Children(logs.show(left), logs.show(right), wd) <= visited.paths
      ensures Walked(logs, Children(logs.show(left), logs.show(right), wd), old(visited.paths), visited.paths,
                     PairCauses(logs, left, right, wd), causes)
      decreases Unvisited(logs, visited.paths), 1, 1
    {
      var a, b := logs.show(left), logs.show(right);
      causes := [];
      if a.command != b.command {
        causes := causes + [CommandsDiffer(left, right)];
      }
      if a.platform != b.platform {
        causes := causes + [PlatformsDiffer(left, right)];
      }
      if a.inputs.Keys != b.inputs.Keys {
        causes := causes + [InputSetsDiffer(left, right)];
      }
      if causes != [] {
        return;
      }
      causes := TraceInputs(a, b, wd, ChangedInputs(a, b), visited);
    }

    method TraceInputs(a: Action, b: Action, wd: Path, changed: set<Path>, visited: Visited)
      returns (causes: seq<RootCause>)
      requires visited.OnceEach() && changed <= ChangedInputs(a, b)
      modifies visited
      ensures visited.OnceEach()
      ensures Kids(wd, changed) <= visited.paths
      ensures Walked(logs, Kids(wd, changed), old(visited.paths), visited.paths,
                     SourceCauses(a, b, wd, changed), causes)
      decreases Unvisited(logs, visited.paths), 1, 0
    {
      causes := [];
      var todo := changed;
      ghost var done: set<Path> := {};
      while todo != {}
        invariant done + todo == changed
        invariant visited.OnceEach()
        invariant Kids(wd, done) <= visited.paths
        invariant Walked(logs, Kids(wd, done), old(visited.paths), visited.paths,
                         SourceCauses(a, b, wd, done), causes)
        decreases todo
      {
        var path :| path in todo;
        FewerUnvisited(logs, old(visited.paths), visited.paths);
        var more := TraceInput(a, b, wd, path, visited, old(visited.paths), done, causes);
        causes := causes + more;
        todo := todo - {path};
        done := done + {path};
      }
      assert done == changed;
    }

    /** The body of the loop over the differing inputs. */
    method TraceInput(a: Action, b: Action, wd: Path, path: Path, visited: Visited,
                      ghost start: set<Path>, ghost done: set<Path>, ghost soFar: seq<RootCause>)
      returns (more: seq<RootCause>)
      requires visited.OnceEach() && path in ChangedInputs(a, b)
      requires Walked(logs, Kids(wd, done), start, visited.paths, SourceCauses(a, b, wd, done), soFar)
      requires Kids(wd, done) <= visited.paths
      modifies visited
      ensures visited.OnceEach()
      ensures old(visited.paths) <= visited.paths && Kids(wd, done + {path}) <= visited.paths
      ensures Walked(logs, Kids(wd, done + {path}), start, visited.paths,
                     SourceCauses(a, b, wd, done + {path}), soFar + more)
      decreases Unvisited(logs, visited.paths), 0, 1
    {
      ghost var before := visited.paths;
      if !Inside(wd, path) {
        more := [SourceCause(a, b, path)];
        WalkedThen(logs, Kids(wd, done), {}, start, before, before,
                   SourceCauses(a, b, wd, done), {SourceCause(a, b, path)}, soFar, more);
      } else {
        more := TraceArtifactFrom(path[|wd|..], visited);
        WalkedThen(logs, Kids(wd, done), {path[|wd|..]}, start, before, visited.paths,
                   SourceCauses(a, b, wd, done), {}, soFar, more);
      }
    }

    /** Fully consumed, the trace of an output has visited exactly what the output reaches, each path once,
        and reports exactly the root causes found there. */
    method TraceArtifact(filepath: Path) returns (causes: seq<RootCause>, visited: set<Path>, ghost order: seq<Path>)
      ensures forall q :: q in visited <==> Reaches(logs, filepath, q)
      ensures forall c :: c in causes <==> c in AllCauses(logs, visited)
      ensures Silent(logs, filepath) ==> causes == [] && visited == {filepath}
      ensures forall q :: q in order <==> q in visited
      ensures forall i, j :: 0 <= i < j < |order| ==> order[i] != order[j]
    {
      var v := new Visited();
      causes := TraceArtifactFrom(filepath, v);
      visited, order := v.paths, v.order;
      assert visited - {} == visited;
      forall q
        ensures q in visited <==> Reaches(logs, filepath, q)
      {
        if Reaches(logs, filepath, q) { ClosedHoldsReachable(logs, visited, filepath, q); }
        if q in visited { assert ReachedFrom(logs, {filepath}, q); }
      }
      if Silent(logs, filepath) {
        SilentReachesItself(logs, filepath);
        assert visited == {filepath} && AllCauses(logs, visited) == {};
        SomeCause(causes);
      }
    }

    /** The same, started from a pair of actions: the working directory comes from the left log. */
    method TraceActions(left: string, right: string)
      returns (causes: seq<RootCause>, visited: set<Path>, ghost order: seq<Path>)
      ensures left !in logs.leftByAction ==> causes == [] && visited == {}
      ensures left in logs.leftByAction ==>
                var wd := logs.leftByAction[left].workingDir;
                && (forall q :: q in visited <==>
                                ReachedFrom(logs, Children(logs.show(left), logs.show(right), wd), q))
                && forall c :: c in causes <==> c in PairCauses(logs, left, right, wd) + AllCauses(logs, visited)
      ensures forall q :: q in order <==> q in visited
      ensures forall i, j :: 0 <= i < j < |order| ==> order[i] != order[j]
    {
      if left !in logs.leftByAction {
        return [], {}, [];
      }
      var wd := logs.leftByAction[left].workingDir;
      var v := new Visited();
      causes := TraceActionsFrom(left, right, wd, v);
      visited, order := v.paths, v.order;
      assert visited - {} == visited;
      ghost var roots := Children(logs.show(left), logs.show(right), wd);
      forall q
        ensures q in visited <==> ReachedFrom(logs, roots, q)
      {
        if ReachedFrom(logs, roots, q) {
          var p :| p in roots && Reaches(logs, p, q);
          ClosedHoldsReachable(logs, visited, p, q);
        }
      }
    }
  }
}
