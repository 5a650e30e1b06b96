/** Concurrent requests to download one stub: any number of processes, each stepping
    through the locked download, interleaved in any order and dying at any point. */
module StubProtocol {
  import opened Text
  import opened StubFiles

  /** How files are classified and read, and what remote storage holds under each digest. */
  datatype Env = Env(isStub: File -> bool, read: File -> Result<StubInfo>, blobs: map<string, string>)

  datatype Outcome = Returned(rc: nat) | Raised

  /** Where a process stands in the locked download. */
  datatype Proc =
    | Idle
    | Waiting                    // lock file open, blocked in flock
    | Entered                    // lock held
    | Exists                     // the path exists
    | Recognised                 // the path is a stub
    | Ready(info: StubInfo)      // the stub was read
    | Fetching(info: StubInfo)   // the downloader is writing the temporary file
    | Fetched                    // it reported success
    | Aside                      // about to move the stub to its backup name
    | Placing                    // about to move the temporary file to the path
    | Leaving(outcome: Outcome)  // about to leave the `with` block
    | Done(outcome: Outcome)
    | Dead(placing: bool)        // and whether it died between the two renames

  predicate Critical(p: Proc) {
    !(p.Idle? || p.Waiting? || p.Done? || p.Dead?)
  }

  datatype Lock = Lock(owner: nat, fd: nat)

  datatype State = State(
    path: Option<File>, backup: Option<File>, temp: Option<File>,
    lock: Option<Lock>, procs: map<nat, Proc>, fetches: nat)

  function Goto(s: State, p: nat, pc: Proc): State {
    s.(procs := s.procs[p := pc])
  }

  /** `_release`: a descriptor number 0 is taken for "not held", and the lock stays. */
  function Released(lock: Option<Lock>): Option<Lock> {
    if lock.Some? && lock.value.fd == 0 then lock else None
  }

  /** The kernel drops a dead process's lock. */
  function Dropped(lock: Option<Lock>, p: nat): Option<Lock> {
    if lock.Some? && lock.value.owner == p then None else lock
  }

  /** One step of process p, or its death. */
  ghost predicate Next(env: Env, s: State, t: State, p: nat) {
    && p in s.procs
    && (|| (!s.procs[p].Dead? &&
            t == Goto(s, p, Dead(s.procs[p].Placing?)).(lock := Dropped(s.lock, p)))
        || Advance(env, s, t, p))
  }

  ghost predicate Advance(env: Env, s: State, t: State, p: nat)
    requires p in s.procs
  {
    match s.procs[p]
    case Idle => t == Goto(s, p, Waiting)
    case Waiting =>
      && s.lock.None?
      && t.lock.Some? && t.lock.value.owner == p
      && t == Goto(s, p, Entered).(lock := t.lock)
    case Entered => t == Goto(s, p, if s.path.None? then Leaving(Returned(0)) else Exists)
    case Exists =>
      t == Goto(s, p, if s.path.None? then Leaving(Raised)
                      else if env.isStub(s.path.value) then Recognised
                      else Leaving(Returned(0)))
    case Recognised =>
      t == Goto(s, p, if s.path.None? || env.read(s.path.value).Err? then Leaving(Raised)
                      else Ready(env.read(s.path.value).value))
    case Ready(info) => t == Goto(s, p, Fetching(info)).(fetches := s.fetches + 1)
    case Fetching(info) =>
      || t == s.(temp := t.temp)
      || (info.blobDigest in env.blobs &&
          t == Goto(s, p, Fetched).(temp := Some(RealFile(env.blobs[info.blobDigest]))))
      || (exists rc: nat {:trigger Returned(rc)} :: rc != 0 && t == Goto(s, p, Leaving(Returned(rc))))
    case Fetched =>
      t == Goto(s, p, if s.path.None? then Leaving(Raised)
                      else if env.isStub(s.path.value) then Aside
                      else Placing)
    case Aside =>
      if s.path.None? then t == Goto(s, p, Leaving(Raised))
      else t == Goto(s, p, Placing).(backup := s.path, path := None)
    case Placing =>
      if s.temp.None? then t == Goto(s, p, Leaving(Raised))
      else t == Goto(s, p, Leaving(Returned(0))).(path := s.temp, temp := None)
    case Leaving(outcome) => t == Goto(s, p, Done(outcome)).(lock := Released(s.lock))
    case Done(_) => t == Goto(s, p, Waiting)
    case Dead(_) => false
  }

  // ---- the artifact

  /** One stub and the artifact it names: `stub` reads as `info`, `output` is what storage holds
      for it, and the two are told apart. */
  datatype Artifact = Artifact(info: StubInfo, stub: File, output: File)

  ghost predicate Good(env: Env, a: Artifact) {
    && env.isStub(a.stub) && env.read(a.stub) == Ok(a.info)
    && (a.info.blobDigest in env.blobs ==> a.output == RealFile(env.blobs[a.info.blobDigest]))
    && !env.isStub(a.output)
  }

  /** A fresh stub at the path, nobody at work; backup and temporary file may be anything. */
  ghost predicate Init(a: Artifact, s: State) {
    && s.path == Some(a.stub) && s.lock.None? && s.fetches == 0
    && forall p :: p in s.procs ==> s.procs[p] == Idle
  }

  /** The artifact is at hand: as a stub, as its bytes, or as a backed-up stub. */
  predicate Recoverable(a: Artifact, s: State) {
    s.path == Some(a.stub) || s.path == Some(a.output) || (s.path == None && s.backup == Some(a.stub))
  }

  // ---- the invariant

  /** What a process knows of the files from where it stands. */
  predicate Knows(a: Artifact, s: State, pc: Proc) {
    match pc
    case Exists => s.path.Some?
    case Recognised => s.path == Some(a.stub)
    case Ready(info) => info == a.info && s.path == Some(a.stub)
    case Fetching(info) => info == a.info && s.path == Some(a.stub)
    case Fetched => s.path == Some(a.stub) && s.temp == Some(a.output)
    case Aside => s.path == Some(a.stub) && s.temp == Some(a.output)
    case Placing => s.path == None && s.backup == Some(a.stub) && s.temp == Some(a.output)
    case Leaving(outcome) => outcome.Returned? && (outcome.rc == 0 <==> s.path != Some(a.stub))
    case Done(outcome) => outcome.Returned? && (outcome.rc == 0 ==> s.path != Some(a.stub))
    case _ => true
  }

  predicate BetweenRenames(pc: Proc) {
    pc.Placing? || pc == Dead(true)
  }

  /** The path is missing only while some process is between the two renames, or died there. */
  ghost predicate MissingExplained(s: State) {
    s.path == None ==> exists p :: p in s.procs && BetweenRenames(s.procs[p])
  }

  /** While a process is between the renames, and for good once it died there, the path is missing and the backup
      holds the stub; there is never a second such process. */
  ghost predicate BetweenMeansMissing(a: Artifact, s: State) {
    && (forall p :: p in s.procs && BetweenRenames(s.procs[p]) ==> s.path == None && s.backup == Some(a.stub))
    && forall p, q :: p in s.procs && q in s.procs && BetweenRenames(s.procs[p]) && BetweenRenames(s.procs[q]) ==>
                        p == q
  }

  ghost predicate Inv(a: Artifact, s: State) {
    && Recoverable(a, s)
    && HoldersHold(s)
    && (forall p :: p in s.procs ==> Knows(a, s, s.procs[p]))
    && MissingExplained(s)
    && BetweenMeansMissing(a, s)
  }

  lemma StepKeepsBetween(env: Env, a: Artifact, s: State, t: State, p: nat)
    requires Good(env, a) && Inv(a, s) && Next(env, s, t, p)
    ensures BetweenMeansMissing(a, t)
  {
    assert Knows(a, s, s.procs[p]);
    forall q | q in t.procs && BetweenRenames(t.procs[q]) ensures t.path == None && t.backup == Some(a.stub) {
      if q != p {
        assert t.procs[q] == s.procs[q];
        assert Critical(s.procs[p]) ==> s.procs[q].Dead?;
      }
    }
    forall q1, q2 | q1 in t.procs && q2 in t.procs && BetweenRenames(t.procs[q1]) && BetweenRenames(t.procs[q2])
      ensures q1 == q2
    {
      assert q1 != p ==> t.procs[q1] == s.procs[q1];
      assert q2 != p ==> t.procs[q2] == s.procs[q2];
    }
  }

  lemma StepKeepsMissingExplained(env: Env, a: Artifact, s: State, t: State, p: nat)
    requires Good(env, a) && Inv(a, s) && Next(env, s, t, p)
    ensures MissingExplained(t)
  {
    assert Knows(a, s, s.procs[p]);
    if t.path == None {
      if s.path == None {
        var q :| q in s.procs && BetweenRenames(s.procs[q]);
        assert q in t.procs && BetweenRenames(t.procs[q]);
      } else {
        assert p in t.procs && BetweenRenames(t.procs[p]);
      }
    }
  }

  ghost predicate HoldersHold(s: State) {
    forall p :: p in s.procs && Critical(s.procs[p]) ==> s.lock.Some? && s.lock.value.owner == p
  }

  lemma StepKeepsHolders(env: Env, s: State, t: State, p: nat)
    requires HoldersHold(s) && Next(env, s, t, p)
    ensures HoldersHold(t)
  {
  }

  lemma StepKeepsRecoverable(env: Env, a: Artifact, s: State, t: State, p: nat)
    requires Good(env, a) && Inv(a, s) && Next(env, s, t, p)
    ensures Recoverable(a, t) && Knows(a, t, t.procs[p])
    ensures !Critical(s.procs[p]) ==> (t.path, t.backup, t.temp) == (s.path, s.backup, s.temp)
    ensures s.path != Some(a.stub) ==> t.path != Some(a.stub)
  {
    assert Knows(a, s, s.procs[p]);
  }

  /** What another process knows survives a step that changes no file, and a process outside the lock
      only knows that the stub is gone for good. */
  lemma KnowledgeSurvives(a: Artifact, s: State, t: State, pc: Proc)
    requires Knows(a, s, pc)
    requires (t.path, t.backup, t.temp) == (s.path, s.backup, s.temp) ||
             (!Critical(pc) && (s.path != Some(a.stub) ==> t.path != Some(a.stub)))
    ensures Knows(a, t, pc)
  {
  }

  lemma StepKeepsKnowledge(env: Env, a: Artifact, s: State, t: State, p: nat)
    requires Good(env, a) && Inv(a, s) && Next(env, s, t, p)
    ensures forall q :: q in t.procs ==> Knows(a, t, t.procs[q])
  {
    StepKeepsRecoverable(env, a, s, t, p);
    forall q | q in t.procs && q != p
      ensures Knows(a, t, t.procs[q])
    {
      assert t.procs[q] == s.procs[q] && Knows(a, s, s.procs[q]);
      assert Critical(s.procs[p]) ==> !Critical(s.procs[q]);
      KnowledgeSurvives(a, s, t, t.procs[q]);
    }
  }

  lemma StepKeepsInv(env: Env, a: Artifact, s: State, t: State, p: nat)
    requires Good(env, a) && Inv(a, s) && Next(env, s, t, p)
    ensures Inv(a, t)
  {
    StepKeepsMissingExplained(env, a, s, t, p);
    StepKeepsBetween(env, a, s, t, p);
    StepKeepsHolders(env, s, t, p);
    StepKeepsRecoverable(env, a, s, t, p);
    StepKeepsKnowledge(env, a, s, t, p);
  }

  // ---- runs

  /** A run records its states and which process made each step. */
  datatype Run = Run(states: seq<State>, movers: seq<nat>)

  ghost predicate IsRun(env: Env, a: Artifact, r: Run) {
    && |r.states| == |r.movers| + 1
    && Init(a, r.states[0])
    && forall i :: 0 <= i < |r.movers| ==> Next(env, r.states[i], r.states[i + 1], r.movers[i])
  }

  lemma {:induction false} RunKeepsInv(env: Env, a: Artifact, r: Run, i: nat)
    requires Good(env, a) && IsRun(env, a, r) && i < |r.states|
    ensures Inv(a, r.states[i])
  {
    if i > 0 {
      RunKeepsInv(env, a, r, i - 1);
      StepKeepsInv(env, a, r.states[i - 1], r.states[i], r.movers[i - 1]);
    }
  }

  /** At most one process is inside the lock. */
  ghost predicate Exclusive(s: State) {
    forall p, q :: p in s.procs && q in s.procs && Critical(s.procs[p]) && Critical(s.procs[q]) ==> p == q
  }

  /** In every reachable state of every interleaving the artifact is recoverable, at most one process
      is inside the lock, and no call has ended in an exception. */
  lemma AlwaysRecoverable(env: Env, a: Artifact, r: Run, i: nat)
    requires Good(env, a) && IsRun(env, a, r) && i < |r.states|
    ensures Recoverable(a, r.states[i])
    ensures Exclusive(r.states[i])
    ensures forall p :: p in r.states[i].procs ==> r.states[i].procs[p] != Done(Raised)
  {
    RunKeepsInv(env, a, r, i);
    var s := r.states[i];
    forall p | p in s.procs
      ensures s.procs[p] != Done(Raised)
    {
      assert Knows(a, s, s.procs[p]);
    }
  }

  /** Only the live holder of the lock ever changes the path, its backup or the temporary file. */
  lemma OnlyHolderWrites(env: Env, a: Artifact, r: Run, i: nat)
    requires Good(env, a) && IsRun(env, a, r) && i < |r.movers|
    ensures var s, t, p := r.states[i], r.states[i + 1], r.movers[i];
            (s.path, s.backup, s.temp) != (t.path, t.backup, t.temp) ==>
              && s.lock.Some? && s.lock.value.owner == p && t.lock == s.lock
              && p in s.procs && p in t.procs && !s.procs[p].Dead? && !t.procs[p].Dead?
  {
    RunKeepsInv(env, a, r, i);
    var s, p := r.states[i], r.movers[i];
    assert Next(env, s, r.states[i + 1], p);
    assert Knows(a, s, s.procs[p]);
  }

  lemma StepKeepsOutput(env: Env, a: Artifact, s: State, t: State, p: nat)
    requires Good(env, a) && Inv(a, s) && Next(env, s, t, p)
    requires s.path == Some(a.output)
    ensures t.path == s.path && t.backup == s.backup && t.fetches == s.fetches
    ensures s.procs[p].Leaving? ==> s.procs[p].outcome == Returned(0)
  {
  }

  /** Once a download has succeeded the output stays in place whatever happens later: nothing is fetched
      again and every call that finishes from then on returns 0. */
  lemma {:induction false} OutputIsFinal(env: Env, a: Artifact, r: Run, i: nat, j: nat)
    requires Good(env, a) && IsRun(env, a, r) && i <= j < |r.states|
    requires r.states[i].path == Some(a.output)
    ensures r.states[j].path == Some(a.output)
    ensures r.states[j].backup == r.states[i].backup && r.states[j].fetches == r.states[i].fetches
    ensures j < |r.movers| ==>
              var p := r.movers[j];
              p in r.states[j].procs &&
              (r.states[j].procs[p].Leaving? ==> r.states[j].procs[p].outcome == Returned(0))
    decreases j
  {
    if i < j {
      OutputIsFinal(env, a, r, i, j - 1);
      RunKeepsInv(env, a, r, j - 1);
      StepKeepsOutput(env, a, r.states[j - 1], r.states[j], r.movers[j - 1]);
    }
    RunKeepsInv(env, a, r, j);
    if j < |r.movers| {
      assert Next(env, r.states[j], r.states[j + 1], r.movers[j]);
      StepKeepsOutput(env, a, r.states[j], r.states[j + 1], r.movers[j]);
    }
  }

  /** A call that returned 0 has left the output in place, exactly when no process is between the two renames or died
      there; otherwise the path is missing and the backup holds the stub. */
  lemma ZeroMeansPresent(env: Env, a: Artifact, r: Run, i: nat, p: nat)
    requires Good(env, a) && IsRun(env, a, r) && i < |r.states|
    requires p in r.states[i].procs && r.states[i].procs[p] == Done(Returned(0))
    ensures var s := r.states[i];
            && (s.path == Some(a.output) <==> !exists q :: q in s.procs && BetweenRenames(s.procs[q]))
            && (s.path != Some(a.output) ==> s.path == None && s.backup == Some(a.stub))
  {
    RunKeepsInv(env, a, r, i);
    assert Knows(a, r.states[i], r.states[i].procs[p]);
  }

  /** A lock taken on descriptor 0 is not given back: until its owner dies nobody gets in again. */
  lemma {:induction false} DescriptorZeroKeepsLock(env: Env, a: Artifact, r: Run, i: nat, j: nat, p: nat)
    requires Good(env, a) && IsRun(env, a, r) && i <= j < |r.states|
    requires r.states[i].lock == Some(Lock(p, 0))
    requires p in r.states[i].procs && !Critical(r.states[i].procs[p])
    requires forall k :: i <= k <= j && p in r.states[k].procs ==> !r.states[k].procs[p].Dead?
    ensures r.states[j].lock == Some(Lock(p, 0))
    ensures forall q :: q in r.states[j].procs ==> !Critical(r.states[j].procs[q])
    ensures p in r.states[j].procs
    decreases j
  {
    RunKeepsInv(env, a, r, j);
    if i < j {
      DescriptorZeroKeepsLock(env, a, r, i, j - 1, p);
      assert Next(env, r.states[j - 1], r.states[j], r.movers[j - 1]);
      assert p in r.states[j].procs && !r.states[j].procs[p].Dead?;
    }
  }

  // ---- progress

  /** The lock is held by a live process inside it, or was left behind on descriptor 0. */
  predicate LockExplained(s: State) {
    s.lock.Some? ==>
      var Lock(p, fd) := s.lock.value;
      p in s.procs && (Critical(s.procs[p]) || (fd == 0 && !s.procs[p].Dead?))
  }

  lemma StepKeepsLockExplained(env: Env, s: State, t: State, p: nat)
    requires HoldersHold(s) && LockExplained(s) && Next(env, s, t, p)
    ensures LockExplained(t)
  {
  }

  lemma {:induction false} LockIsExplained(env: Env, a: Artifact, r: Run, i: nat)
    requires Good(env, a) && IsRun(env, a, r) && i < |r.states|
    ensures LockExplained(r.states[i])
  {
    if i > 0 {
      LockIsExplained(env, a, r, i - 1);
      RunKeepsInv(env, a, r, i - 1);
      StepKeepsLockExplained(env, r.states[i - 1], r.states[i], r.movers[i - 1]);
    }
  }

  /** How many steps a process inside the lock is from leaving it, at most. */
  function StepsLeft(pc: Proc): nat {
    match pc
    case Entered => 9
    case Exists => 8
    case Recognised => 7
    case Ready(_) => 6
    case Fetching(_) => 5
    case Fetched => 4
    case Aside => 3
    case Placing => 2
    case Leaving(_) => 1
    case _ => 0
  }

  /** The process has not given up on the stub, or the output is in place. */
  predicate OnItsWay(a: Artifact, s: State, p: nat) {
    p in s.procs &&
    (s.path == Some(a.output) || s.procs[p].Placing? ||
     (s.path == Some(a.stub) && Critical(s.procs[p]) && !s.procs[p].Leaving?))
  }

  /** The next step of a process inside the lock; the fetch succeeds if storage has the blob. */
  function Onward(env: Env, a: Artifact, s: State, p: nat): State
    requires p in s.procs && Critical(s.procs[p])
  {
    match s.procs[p]
    case Entered => Goto(s, p, if s.path.None? then Leaving(Returned(0)) else Exists)
    case Exists => Goto(s, p, if s.path == Some(a.stub) then Recognised else Leaving(Returned(0)))
    case Recognised => Goto(s, p, Ready(a.info))
    case Ready(info) => Goto(s, p, Fetching(info)).(fetches := s.fetches + 1)
    case Fetching(info) =>
      if info.blobDigest in env.blobs
      then Goto(s, p, Fetched).(temp := Some(RealFile(env.blobs[info.blobDigest])))
      else Goto(s, p, Leaving(Returned(1)))
    case Fetched => Goto(s, p, Aside)
    case Aside => Goto(s, p, Placing).(backup := s.path, path := None)
    case Placing => Goto(s, p, Leaving(Returned(0))).(path := s.temp, temp := None)
    case Leaving(outcome) => Goto(s, p, Done(outcome)).(lock := Released(s.lock))
  }

  /** From wherever it stands inside the lock, a process can go on. */
  lemma OnwardIsStep(env: Env, a: Artifact, s: State, p: nat)
    requires Good(env, a) && Inv(a, s) && p in s.procs && Critical(s.procs[p])
    ensures Next(env, s, Onward(env, a, s, p), p)
  {
  }

  lemma OnwardLeadsOut(env: Env, a: Artifact, s: State, p: nat)
    requires p in s.procs && Critical(s.procs[p])
    ensures var t := Onward(env, a, s, p);
            && t.procs == s.procs[p := t.procs[p]] && StepsLeft(t.procs[p]) < StepsLeft(s.procs[p])
            && if Critical(t.procs[p]) then t.lock == s.lock else t.procs[p].Done? && t.lock == Released(s.lock)
  {
  }

  lemma OnwardKeepsWay(env: Env, a: Artifact, s: State, p: nat)
    requires Good(env, a) && Inv(a, s) && p in s.procs && Critical(s.procs[p])
    requires a.info.blobDigest in env.blobs && OnItsWay(a, s, p)
    ensures OnItsWay(a, Onward(env, a, s, p), p)
  {
  }

  /** Steps of one process alone. */
  ghost predicate Alone(env: Env, states: seq<State>, p: nat) {
    states != [] && forall i :: 0 <= i < |states| - 1 ==> Next(env, states[i], states[i + 1], p)
  }

  lemma AloneFrom(env: Env, s: State, more: seq<State>, p: nat)
    requires Alone(env, more, p) && Next(env, s, more[0], p)
    ensures Alone(env, [s] + more, p)
  {
    var states := [s] + more;
    forall i | 0 <= i < |states| - 1 ensures Next(env, states[i], states[i + 1], p) {
      if i > 0 { assert states[i] == more[i - 1] && states[i + 1] == more[i]; }
    }
  }

  /** From s, with p inside the lock, to t: p has finished and given the lock back, nobody else has moved, and the
      output is in place if p had not given up and storage has it. */
  ghost predicate Finishes(env: Env, a: Artifact, s: State, t: State, p: nat) {
    && Inv(a, t) && p in t.procs && t.procs.Keys == s.procs.Keys && t.procs[p].Done? && t.lock == Released(s.lock)
    && (forall q :: q in s.procs && q != p ==> t.procs[q] == s.procs[q])
    && (a.info.blobDigest in env.blobs && OnItsWay(a, s, p) ==> t.path == Some(a.output))
  }

  lemma FinishesFrom(env: Env, a: Artifact, s: State, t: State, p: nat)
    requires Good(env, a) && Inv(a, s) && p in s.procs && Critical(s.procs[p])
    ensures var u := Onward(env, a, s, p);
            && Next(env, s, u, p) && Inv(a, u)
            && if Critical(u.procs[p]) then Finishes(env, a, u, t, p) ==> Finishes(env, a, s, t, p)
               else Finishes(env, a, s, u, p)
  {
    OnwardIsStep(env, a, s, p);
    OnwardLeadsOut(env, a, s, p);
    if a.info.blobDigest in env.blobs && OnItsWay(a, s, p) { OnwardKeepsWay(env, a, s, p); }
    StepKeepsInv(env, a, s, Onward(env, a, s, p), p);
  }

  /** So it can finish on its own, in at most nine steps. */
  lemma {:induction false} HolderCanFinish(env: Env, a: Artifact, s: State, p: nat) returns (states: seq<State>)
    requires Good(env, a) && Inv(a, s) && p in s.procs && Critical(s.procs[p])
    ensures Alone(env, states, p) && states[0] == s && |states| <= StepsLeft(s.procs[p]) + 1 <= 10
    ensures Finishes(env, a, s, states[|states| - 1], p)
    decreases StepsLeft(s.procs[p])
  {
    var u := Onward(env, a, s, p);
    OnwardLeadsOut(env, a, s, p);
    FinishesFrom(env, a, s, u, p);
    if Critical(u.procs[p]) {
      var more := HolderCanFinish(env, a, u, p);
      FinishesFrom(env, a, s, more[|more| - 1], p);
      AloneFrom(env, s, more, p);
      states := [s] + more;
    } else {
      states := [s, u];
    }
  }

  /** Nobody waits in vain: in every reachable state a waiting process can get the lock, once the one inside has
      finished, unless the lock was left behind on descriptor 0. */
  lemma {:induction false} WaiterCanEnter(env: Env, a: Artifact, r: Run, i: nat, q: nat)
    returns (states: seq<State>, t: State)
    requires Good(env, a) && IsRun(env, a, r) && i < |r.states|
    requires q in r.states[i].procs && r.states[i].procs[q].Waiting?
    requires r.states[i].lock.Some? ==> r.states[i].lock.value.fd != 0
    ensures r.states[i].lock.None? ==> states == [r.states[i]]
    ensures r.states[i].lock.Some? ==> Alone(env, states, r.states[i].lock.value.owner)
    ensures states != [] && states[0] == r.states[i] && |states| <= 10
    ensures Next(env, states[|states| - 1], t, q) && t.procs[q].Entered?
  {
    var s := r.states[i];
    RunKeepsInv(env, a, r, i);
    LockIsExplained(env, a, r, i);
    states := [s];
    if s.lock.Some? { states := HolderCanFinish(env, a, s, s.lock.value.owner); }
    var last := states[|states| - 1];
    t := Goto(last, q, Entered).(lock := Some(Lock(q, 1)));
  }

  // ---- the real files

  /** The classification and reader of remote_action.py. */
  function RealEnv(haveXattr: bool, blobs: map<string, string>): Env {
    Env((f: File) => IsStub(haveXattr, f), (f: File) => ReadStub(f.text), blobs)
  }

  /** All of the above holds for every stub whose fields fit on a line and every artifact that cannot
      be taken for a stub. */
  lemma RealFilesAreGood(haveXattr: bool, info: StubInfo, bytes: string, blobs: map<string, string>)
    requires Valid(info) && Clean(info)
    requires info.blobDigest in blobs ==> blobs[info.blobDigest] == bytes
    ensures Good(RealEnv(haveXattr, blobs), Artifact(info, StubFile(haveXattr, info), RealFile(bytes))) <==>
            Plain(haveXattr, bytes)
  {
    FilesAreToldApart(haveXattr, info, bytes);
  }
}
