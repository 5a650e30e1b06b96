/** One caller's pass through the locked download, against what a download does to the disk. */
module StubPass {
  import opened Text
  import opened StubFiles
  import opened StubTree
  import P = StubProtocol

  function FilesOf(s: P.State): Disk {
    Disk(s.path, s.backup)
  }

  /** What a download of the stub at the path can bring: the blob that storage has for it, or nothing. */
  predicate CanBring(d: Disk, blobs: map<string, string>, fetched: Option<string>) {
    fetched.Some? ==>
      && d.path.Some? && ReadStub(d.path.value.text).Ok?
      && var digest := ReadStub(d.path.value.text).value.blobDigest;
         digest in blobs && fetched.value == blobs[digest]
  }

  /** The files, and what the call gives back, are those of a download. */
  ghost predicate Ended(cfg: Config, blobs: map<string, string>, d: Disk, e: Disk, outcome: P.Outcome) {
    exists fetched ::
      && CanBring(d, blobs, fetched) && e == AfterDownload(cfg, d, fetched)
      && (outcome == P.Raised <==> d.path.Some? && Stub(cfg, d.path.value) && ReadStub(d.path.value.text).Err?)
      && (outcome.Returned? ==> (outcome.rc != 0 <==> d.path.Some? && Stub(cfg, d.path.value) && fetched.None?))
  }

  /** Where a pass that began with files d stands. */
  ghost predicate Passing(cfg: Config, blobs: map<string, string>, d: Disk, s: P.State, pc: P.Proc) {
    match pc
    case Entered => FilesOf(s) == d
    case Exists => FilesOf(s) == d && d.path.Some?
    case Recognised => FilesOf(s) == d && d.path.Some? && Stub(cfg, d.path.value)
    case Ready(info) => FilesOf(s) == d && Reads(cfg, d, info)
    case Fetching(info) => FilesOf(s) == d && Reads(cfg, d, info)
    case Fetched => FilesOf(s) == d && Brought(cfg, blobs, d, s.temp)
    case Aside => FilesOf(s) == d && Brought(cfg, blobs, d, s.temp)
    case Placing => FilesOf(s) == AfterInterrupted(cfg, d) && Brought(cfg, blobs, d, s.temp)
    case Leaving(outcome) => Ended(cfg, blobs, d, FilesOf(s), outcome)
    case Done(outcome) => Ended(cfg, blobs, d, FilesOf(s), outcome)
    case Dead(placing) =>
      if placing then FilesOf(s) == AfterInterrupted(cfg, d) else AllOrNothing(cfg, blobs, d, FilesOf(s))
    case _ => false
  }

  /** Nothing happened, or a whole download. */
  ghost predicate AllOrNothing(cfg: Config, blobs: map<string, string>, d: Disk, e: Disk) {
    exists fetched :: CanBring(d, blobs, fetched) && e == AfterDownload(cfg, d, fetched)
  }

  predicate Reads(cfg: Config, d: Disk, info: StubInfo) {
    d.path.Some? && Stub(cfg, d.path.value) && ReadStub(d.path.value.text) == Ok(info)
  }

  predicate Brought(cfg: Config, blobs: map<string, string>, d: Disk, temp: Option<File>) {
    && d.path.Some? && Genuine(cfg, d.path.value)
    && var digest := ReadStub(d.path.value.text).value.blobDigest;
       digest in blobs && temp == Some(RealFile(blobs[digest]))
  }

  function Env(cfg: Config, blobs: map<string, string>): P.Env {
    P.RealEnv(cfg.haveXattr, blobs)
  }

  lemma EarlyAdvance(cfg: Config, blobs: map<string, string>, d: Disk, s: P.State, t: P.State, p: nat)
    requires p in s.procs && (s.procs[p].Entered? || s.procs[p].Exists? || s.procs[p].Recognised?)
    requires Passing(cfg, blobs, d, s, s.procs[p]) && P.Advance(Env(cfg, blobs), s, t, p)
    ensures p in t.procs && Passing(cfg, blobs, d, t, t.procs[p])
  {
    assert CanBring(d, blobs, None) && AfterDownload(cfg, d, None) == d;
  }

  lemma LateAdvance(cfg: Config, blobs: map<string, string>, d: Disk, s: P.State, t: P.State, p: nat)
    requires p in s.procs && P.Critical(s.procs[p])
    requires !s.procs[p].Entered? && !s.procs[p].Exists? && !s.procs[p].Recognised?
    requires Passing(cfg, blobs, d, s, s.procs[p]) && P.Advance(Env(cfg, blobs), s, t, p)
    ensures p in t.procs && Passing(cfg, blobs, d, t, t.procs[p])
  {
    assert CanBring(d, blobs, None) && AfterDownload(cfg, d, None) == d;
    if s.procs[p].Placing? {
      assert CanBring(d, blobs, Some(blobs[ReadStub(d.path.value.text).value.blobDigest]));
    }
  }

  lemma StepKeepsPassing(cfg: Config, blobs: map<string, string>, d: Disk, s: P.State, t: P.State, p: nat)
    requires p in s.procs && P.Critical(s.procs[p]) && Passing(cfg, blobs, d, s, s.procs[p])
    requires P.Next(Env(cfg, blobs), s, t, p)
    ensures p in t.procs && Passing(cfg, blobs, d, t, t.procs[p])
  {
    if P.Advance(Env(cfg, blobs), s, t, p) {
      if s.procs[p].Entered? || s.procs[p].Exists? || s.procs[p].Recognised? {
        EarlyAdvance(cfg, blobs, d, s, t, p);
      } else {
        LateAdvance(cfg, blobs, d, s, t, p);
      }
    } else {
      assert CanBring(d, blobs, None) && AfterDownload(cfg, d, None) == d;
    }
  }

  /** A pass that nobody interferes with, whatever the files it finds: when it is done, files and outcome are those of
      a download; when it dies, the files are as before, or downloaded, or as after an interrupted download. */
  lemma {:induction false} PassIsDownload(cfg: Config, blobs: map<string, string>, states: seq<P.State>, p: nat)
    requires P.Alone(Env(cfg, blobs), states, p) && p in states[0].procs && states[0].procs[p].Entered?
    requires forall i :: 0 <= i < |states| - 1 ==> p in states[i].procs && P.Critical(states[i].procs[p])
    ensures var d, t := FilesOf(states[0]), states[|states| - 1];
            && p in t.procs && Passing(cfg, blobs, d, t, t.procs[p])
            && (t.procs[p].Done? ==> Ended(cfg, blobs, d, FilesOf(t), t.procs[p].outcome))
            && (t.procs[p] == P.Dead(true) ==> FilesOf(t) == AfterInterrupted(cfg, d))
            && (t.procs[p] == P.Dead(false) ==> AllOrNothing(cfg, blobs, d, FilesOf(t)))
    decreases |states|
  {
    var n := |states| - 1;
    if n > 0 {
      var init := states[..n];
      forall i | 0 <= i < |init| - 1 ensures P.Next(Env(cfg, blobs), init[i], init[i + 1], p) {
        assert init[i] == states[i] && init[i + 1] == states[i + 1];
      }
      PassIsDownload(cfg, blobs, init, p);
      assert P.Next(Env(cfg, blobs), states[n - 1], states[n - 1 + 1], p);
      StepKeepsPassing(cfg, blobs, FilesOf(states[0]), states[n - 1], states[n], p);
    }
  }
}
