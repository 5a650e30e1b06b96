/** Runs of the download protocol in which it goes wrong, and when it cannot. */
module StubRuns {
  import opened Text
  import opened StubFiles
  import opened StubProtocol

  function Last(r: Run): State
    requires r.states != []
  {
    r.states[|r.states| - 1]
  }

  function Then(r: Run, t: State, p: nat): Run {
    Run(r.states + [t], r.movers + [p])
  }

  lemma Extend(env: Env, a: Artifact, r: Run, t: State, p: nat)
    requires IsRun(env, a, r) && Next(env, Last(r), t, p)
    ensures IsRun(env, a, Then(r, t, p)) && Last(Then(r, t, p)) == t
  {
    var r2 := Then(r, t, p);
    forall i | 0 <= i < |r2.movers| ensures Next(env, r2.states[i], r2.states[i + 1], r2.movers[i]) {
      if i < |r.movers| { assert r2.states[i] == r.states[i] && r2.states[i + 1] == r.states[i + 1]; }
    }
  }

  /** A fresh stub and two processes. */
  function Start(a: Artifact): State {
    State(Some(a.stub), None, None, None, map[0 := Idle, 1 := Idle], 0)
  }

  /** Process 0 in the middle of the download of the stub, at a point of the protocol. */
  function Midway(a: Artifact, pc: Proc): State {
    var begun := pc.Fetching? || pc.Fetched? || pc.Aside? || pc.Placing?;
    var done := pc.Fetched? || pc.Aside? || pc.Placing?;
    State(if pc.Placing? then None else Some(a.stub), if pc.Placing? then Some(a.stub) else None,
          if done then Some(a.output) else None, Some(Lock(0, 1)), map[0 := pc, 1 := Idle], if begun then 1 else 0)
  }

  /** What the runs below ask of the world: the stub reads as its record, and storage has the artifact. */
  ghost predicate Stored(env: Env, a: Artifact) {
    && env.isStub(a.stub) && env.read(a.stub) == Ok(a.info)
    && a.info.blobDigest in env.blobs && a.output == RealFile(env.blobs[a.info.blobDigest])
  }

  /** One step of process 0 after another, from the lock to the second rename. */
  function NextPc(a: Artifact, pc: Proc): Proc {
    match pc
    case Entered => Exists
    case Exists => Recognised
    case Recognised => Ready(a.info)
    case Ready(info) => Fetching(info)
    case Fetching(_) => Fetched
    case Fetched => Aside
    case _ => Placing
  }

  predicate Under(a: Artifact, pc: Proc) {
    Critical(pc) && !pc.Leaving? && !pc.Placing? && (pc.Ready? || pc.Fetching? ==> pc.info == a.info)
  }

  lemma MidwayNext(env: Env, a: Artifact, pc: Proc)
    requires Stored(env, a) && Under(a, pc)
    ensures Next(env, Midway(a, pc), Midway(a, NextPc(a, pc)), 0)
  {
    var s, t := Midway(a, pc), Midway(a, NextPc(a, pc));
    assert t.procs == s.procs[0 := NextPc(a, pc)];
  }

  lemma {:induction false} RunOnToPlacing(env: Env, a: Artifact, r: Run, pc: Proc) returns (r2: Run)
    requires Stored(env, a) && IsRun(env, a, r) && Last(r) == Midway(a, pc) && (Under(a, pc) || pc.Placing?)
    ensures IsRun(env, a, r2) && Last(r2) == Midway(a, Placing)
    ensures |r2.states| == |r.states| + StepsLeft(pc) - 2
    decreases StepsLeft(pc)
  {
    if pc.Placing? { return r; }
    var t := Midway(a, NextPc(a, pc));
    MidwayNext(env, a, pc);
    Extend(env, a, r, t, 0);
    r2 := RunOnToPlacing(env, a, Then(r, t, 0), NextPc(a, pc));
  }

  /** For every stub whose artifact is in storage, a download gets to the second rename. */
  lemma {:induction false} RunToPlacing(env: Env, a: Artifact) returns (r: Run)
    requires Stored(env, a)
    ensures IsRun(env, a, r) && |r.states| == 10 && Last(r) == Midway(a, Placing)
  {
    var s := Start(a);
    var w, e := Goto(s, 0, Waiting), Midway(a, Entered);
    r := Run([s], []);
    Extend(env, a, r, w, 0);
    assert e.procs == w.procs[0 := Entered];
    Extend(env, a, Then(r, w, 0), e, 0);
    r := RunOnToPlacing(env, a, Then(Then(r, w, 0), e, 0), Entered);
  }

  // ---- the crash

  /** Process 0 has died between the renames; process 1 is at a point of the protocol. */
  function Crashed(a: Artifact, pc: Proc): State {
    State(None, Some(a.stub), Some(a.output), if Critical(pc) then Some(Lock(1, 1)) else None,
          map[0 := Dead(true), 1 := pc], 1)
  }

  function CallerPc(pc: Proc): Proc {
    match pc
    case Idle => Waiting
    case Waiting => Entered
    case Entered => Leaving(Returned(0))
    case _ => Done(Returned(0))
  }

  lemma CrashedNext(env: Env, a: Artifact, pc: Proc)
    requires pc == Idle || pc == Waiting || pc == Entered || pc == Leaving(Returned(0))
    ensures Next(env, Crashed(a, pc), Crashed(a, CallerPc(pc)), 1)
  {
    assert Crashed(a, CallerPc(pc)).procs == Crashed(a, pc).procs[1 := CallerPc(pc)];
  }

  lemma {:induction false} RunOnCrashed(env: Env, a: Artifact, r: Run, pc: Proc) returns (r2: Run)
    requires IsRun(env, a, r) && Last(r) == Crashed(a, pc)
    requires pc == Idle || pc == Waiting || pc == Entered || pc == Leaving(Returned(0))
    ensures IsRun(env, a, r2) && r2 == Then(r, Crashed(a, CallerPc(pc)), 1) && Last(r2) == Crashed(a, CallerPc(pc))
  {
    CrashedNext(env, a, pc);
    Extend(env, a, r, Crashed(a, CallerPc(pc)), 1);
    r2 := Then(r, Crashed(a, CallerPc(pc)), 1);
  }

  /** For every stub whose artifact is in storage there is a run in which a process dies between the two renames and
      the next caller returns 0 with no file at the path. */
  lemma {:induction false} CrashLeavesNoFile(env: Env, a: Artifact) returns (r: Run)
    requires Stored(env, a)
    ensures IsRun(env, a, r) && |r.states| == 15 && Last(r) == Crashed(a, Done(Returned(0)))
    ensures Last(r).path == None && 1 in Last(r).procs && Last(r).procs[1] == Done(Returned(0))
  {
    r := RunToPlacing(env, a);
    var t := Crashed(a, Idle);
    assert t.procs == Midway(a, Placing).procs[0 := Dead(true)];
    Extend(env, a, r, t, 0);
    r := Then(r, t, 0);
    r := RunOnCrashed(env, a, r, Idle);
    r := RunOnCrashed(env, a, r, Waiting);
    r := RunOnCrashed(env, a, r, Entered);
    r := RunOnCrashed(env, a, r, Leaving(Returned(0)));
  }

  // ---- the lookalike

  /** The artifact is in place; process 0 put it there and process 1 comes after it. */
  function Placed(a: Artifact, first: Proc, second: Proc): State {
    State(Some(a.output), Some(a.stub), None,
          if Critical(first) then Some(Lock(0, 1)) else if Critical(second) then Some(Lock(1, 1)) else None,
          map[0 := first, 1 := second], if second.Fetching? then 2 else 1)
  }

  lemma {:induction false} RunToPlaced(env: Env, a: Artifact) returns (r: Run)
    requires Stored(env, a)
    ensures IsRun(env, a, r) && |r.states| == 12 && r.states[10] == Placed(a, Leaving(Returned(0)), Idle)
    ensures Last(r) == Placed(a, Done(Returned(0)), Idle)
  {
    r := RunToPlacing(env, a);
    var t, u := Placed(a, Leaving(Returned(0)), Idle), Placed(a, Done(Returned(0)), Idle);
    assert t.procs == Midway(a, Placing).procs[0 := Leaving(Returned(0))];
    Extend(env, a, r, t, 0);
    r := Then(r, t, 0);
    assert u.procs == t.procs[0 := Done(Returned(0))];
    Extend(env, a, r, u, 0);
    r := Then(r, u, 0);
  }

  /** What the second caller does with an artifact that looks like a stub. */
  function DupedPc(env: Env, a: Artifact, pc: Proc): Proc {
    match pc
    case Idle => Waiting
    case Waiting => Entered
    case Entered => Exists
    case Exists => Recognised
    case Recognised => if env.read(a.output).Err? then Leaving(Raised) else Ready(env.read(a.output).value)
    case Ready(info) => Fetching(info)
    case _ => pc
  }

  predicate Duped(pc: Proc) {
    pc.Idle? || pc.Waiting? || pc.Entered? || pc.Exists? || pc.Recognised? || pc.Ready?
  }

  lemma DupedNext(env: Env, a: Artifact, pc: Proc)
    requires env.isStub(a.output) && Duped(pc)
    ensures Next(env, Placed(a, Done(Returned(0)), pc), Placed(a, Done(Returned(0)), DupedPc(env, a, pc)), 1)
  {
    var s, t := Placed(a, Done(Returned(0)), pc), Placed(a, Done(Returned(0)), DupedPc(env, a, pc));
    assert t.procs == s.procs[1 := DupedPc(env, a, pc)];
  }

  function ToGo(pc: Proc): nat {
    if pc.Idle? then 6 else if pc.Waiting? then 5 else if pc.Entered? then 4 else if pc.Exists? then 3
    else if pc.Recognised? then 2 else if pc.Ready? then 1 else 0
  }

  lemma {:induction false} RunOnDuped(env: Env, a: Artifact, r: Run, pc: Proc) returns (r2: Run, end: Proc)
    requires env.isStub(a.output) && IsRun(env, a, r) && Last(r) == Placed(a, Done(Returned(0)), pc)
    requires Duped(pc) || pc == Leaving(Raised) || pc.Fetching?
    ensures IsRun(env, a, r2) && r.states <= r2.states && Last(r2) == Placed(a, Done(Returned(0)), end)
    ensures |r2.states| <= |r.states| + ToGo(pc) && (end == Leaving(Raised) || end.Fetching?)
    decreases ToGo(pc)
  {
    if !Duped(pc) { return r, pc; }
    var t := Placed(a, Done(Returned(0)), DupedPc(env, a, pc));
    DupedNext(env, a, pc);
    Extend(env, a, r, t, 1);
    r2, end := RunOnDuped(env, a, Then(r, t, 1), DupedPc(env, a, pc));
  }

  /** Once the artifact is in place it stays, nothing is fetched again, and no call ends in an exception. */
  ghost predicate Final(env: Env, a: Artifact) {
    forall r, i, j ::
      IsRun(env, a, r) && 0 <= i <= j < |r.states| && r.states[i].path == Some(a.output) ==> StaysFinal(r, i, j)
  }

  ghost predicate StaysFinal(r: Run, i: nat, j: nat)
    requires i < |r.states| && j < |r.states|
  {
    && r.states[j].path == r.states[i].path && r.states[j].fetches == r.states[i].fetches
    && forall p :: p in r.states[j].procs ==> r.states[j].procs[p] != Leaving(Raised)
  }

  /** An artifact that looks like a stub is not final: there is a run in which it is in place and a later caller reads
      it as a stub, and either raises or fetches again. */
  lemma {:induction false} LookalikeIsNotFinal(env: Env, a: Artifact) returns (r: Run)
    requires Stored(env, a) && env.isStub(a.output)
    ensures IsRun(env, a, r) && 10 < |r.states| <= 18 && r.states[10].path == Some(a.output)
    ensures !StaysFinal(r, 10, |r.states| - 1)
  {
    var first := RunToPlaced(env, a);
    var end;
    r, end := RunOnDuped(env, a, first, Idle);
    assert r.states[10] == first.states[10];
    assert 1 in Last(r).procs && Last(r).procs[1] == end;
  }

  /** The artifact is final on every run exactly when it cannot be taken for a stub. */
  lemma {:induction false} FinalIffPlain(haveXattr: bool, info: StubInfo, bytes: string, blobs: map<string, string>)
    requires Valid(info) && Clean(info) && info.blobDigest in blobs && blobs[info.blobDigest] == bytes
    ensures Final(RealEnv(haveXattr, blobs), Artifact(info, StubFile(haveXattr, info), RealFile(bytes))) <==>
            Plain(haveXattr, bytes)
  {
    var env, a := RealEnv(haveXattr, blobs), Artifact(info, StubFile(haveXattr, info), RealFile(bytes));
    RealFilesAreGood(haveXattr, info, bytes, blobs);
    FilesAreToldApart(haveXattr, info, bytes);
    if Plain(haveXattr, bytes) {
      GoodIsFinal(env, a);
    } else {
      var r := LookalikeIsNotFinal(env, a);
      assert !StaysFinal(r, 10, |r.states| - 1);
    }
  }

  lemma {:induction false} GoodIsFinal(env: Env, a: Artifact)
    requires Good(env, a)
    ensures Final(env, a)
  {
    forall r, i, j | IsRun(env, a, r) && 0 <= i <= j < |r.states| && r.states[i].path == Some(a.output)
      ensures StaysFinal(r, i, j)
    {
      OutputIsFinal(env, a, r, i, j);
      RunKeepsInv(env, a, r, j);
      forall p | p in r.states[j].procs ensures r.states[j].procs[p] != Leaving(Raised) {
        assert Knows(a, r.states[j], r.states[j].procs[p]);
      }
    }
  }
}
