/** One output of a build over its life: stubs created, downloaded, restored and updated
    by later builds. File modes, time stamps and outputs that are directories are not modelled. */
module StubTree {
  import opened Text
  import opened StubFiles

  /** Whether extended attributes exist here, and the hash of a file's contents. */
  datatype Config = Config(haveXattr: bool, sha256: string -> string)

  function Decimal(n: nat): string {
    var digit := ['0' + (n % 10) as char];
    if n < 10 then digit else Decimal(n / 10) + digit
  }

  /** `get_blob_digest` */
  function Digest(cfg: Config, text: string): string {
    cfg.sha256(text) + "/" + Decimal(|text|)
  }

  /** The output's path and the backup of its stub. */
  datatype Disk = Disk(path: Option<File>, backup: Option<File>)

  predicate Stub(cfg: Config, f: File) {
    IsStub(cfg.haveXattr, f)
  }

  /** The digest of the artifact that a file stands for: the one a stub names, the one bytes have. */
  function Denotes(cfg: Config, f: File): Option<string> {
    if !Stub(cfg, f) then Some(Digest(cfg, f.text))
    else
      match ReadStub(f.text)
      case Ok(info) => Some(info.blobDigest)
      case Err(_) => None
  }

  /** A stub that can be read. */
  predicate Genuine(cfg: Config, f: File) {
    Stub(cfg, f) && ReadStub(f.text).Ok?
  }

  // ---- what each operation does to the disk

  function AfterCreate(cfg: Config, d: Disk, info: StubInfo): Disk {
    d.(path := Some(StubFile(cfg.haveXattr, info)))
  }

  /** The locked download, alone on the disk; `fetched` is what the downloader brought, if anything. */
  function AfterDownload(cfg: Config, d: Disk, fetched: Option<string>): Disk {
    if d.path.None? || !Genuine(cfg, d.path.value) || fetched.None? then d
    else Disk(Some(RealFile(fetched.value)), d.path)
  }

  /** A download that dies between its two renames. */
  function AfterInterrupted(cfg: Config, d: Disk): Disk {
    if d.path.None? || !Genuine(cfg, d.path.value) then d else Disk(None, d.path)
  }

  function AfterUndownload(cfg: Config, d: Disk): Disk {
    if d.backup.Some? && Stub(cfg, d.backup.value) then Disk(d.backup, None) else d
  }

  class OutputTree {
    const cfg: Config
    var path: Option<File>
    var backup: Option<File>
    var temp: Option<File>
    var writes: nat

    constructor (cfg: Config, d: Disk)
      ensures this.cfg == cfg && Files() == d
    {
      this.cfg := cfg;
      path, backup, temp, writes := d.path, d.backup, None, 0;
    }

    function Files(): Disk
      reads this
    {
      Disk(path, backup)
    }

    method Create(info: StubInfo)
      modifies this`path, this`writes
      ensures Files() == AfterCreate(cfg, old(Files()), info)
      ensures writes == old(writes) + 1
    {
      path := Some(StubFile(cfg.haveXattr, info));
      writes := writes + 1;
    }

    /** Returns the exit code, or an error where reading the stub raises. */
    method Download(fetched: Option<string>) returns (status: Result<nat>)
      modifies this
      ensures Files() == AfterDownload(cfg, old(Files()), fetched)
      ensures status.Err? <==> old(path).Some? && Stub(cfg, old(path).value) && ReadStub(old(path).value.text).Err?
      ensures status.Ok? ==> (status.value != 0 <==>
                                old(path).Some? && Stub(cfg, old(path).value) && fetched.None?)
    {
      if path.None? {
        return Ok(0);
      }
      if !Stub(cfg, path.value) {
        return Ok(0);
      }
      var info := ReadStub(path.value.text);
      if info.Err? {
        return Err(info.message);
      }
      if fetched.None? {
        return Ok(1);
      }
      temp := Some(RealFile(fetched.value));
      if Stub(cfg, path.value) {
        backup := path;
        path := None;
      }
      path := temp;
      temp := None;
      writes := writes + 1;
      return Ok(0);
    }

    method Undownload() returns (restored: bool)
      modifies this
      ensures Files() == AfterUndownload(cfg, old(Files()))
      ensures restored <==> old(backup).Some? && Stub(cfg, old(backup).value)
    {
      if backup.Some? && Stub(cfg, backup.value) {
        path := backup;
        backup := None;
        writes := writes + 1;
        return true;
      }
      return false;
    }

    /** `_update_stub`; false where reading a stub raises, and then nothing has changed. */
    method UpdateStub(info: StubInfo, preserve: bool) returns (ok: bool)
      requires Valid(info) && Clean(info)
      modifies this
      ensures Consistent(cfg, old(Files())) ==> ok && Consistent(cfg, Files())
      ensures Consistent(cfg, old(Files())) ==> path.Some? && Denotes(cfg, path.value) == Some(info.blobDigest)
      ensures Files() == AfterUpdate(cfg, old(Files()), info, preserve)
      ensures writes == old(writes) || path == Some(StubFile(cfg.haveXattr, info))
      ensures preserve && old(path).Some? && Denotes(cfg, old(path).value) == Some(info.blobDigest) &&
              Consistent(cfg, old(Files())) ==>
                Files() == old(Files()) && writes == old(writes)
    {
      UpdateIsRight(cfg, Files(), info, preserve);
      if preserve && path.Some? {
        if Stub(cfg, path.value) {
          var previous := ReadStub(path.value.text);
          if previous.Err? {
            return false;
          }
          if previous.value.blobDigest != info.blobDigest {
            Create(info);
          }
          return true;
        } else {
          var oldDigest;
          if backup.Some? {
            var previous := ReadStub(backup.value.text);
            if previous.Err? {
              return false;
            }
            oldDigest := previous.value.blobDigest;
          } else {
            oldDigest := Digest(cfg, path.value.text);
          }
          if info.blobDigest != oldDigest {
            if backup.Some? {
              backup := None;
            }
            path := None;
            Create(info);
          }
          return true;
        }
      }
      Create(info);
      return true;
    }
  }

  /** The digest that `_update_stub` takes an existing output to have: a stub's own, the backed-up stub's
      without looking at the bytes, or the hash of the bytes. */
  function AssumedDigest(cfg: Config, d: Disk): Option<string>
    requires d.path.Some?
  {
    if Stub(cfg, d.path.value) then Denotes(cfg, d.path.value)
    else if d.backup.Some? then
      match ReadStub(d.backup.value.text)
      case Ok(info) => Some(info.blobDigest)
      case Err(_) => None
    else Some(Digest(cfg, d.path.value.text))
  }

  function AfterUpdate(cfg: Config, d: Disk, info: StubInfo, preserve: bool): Disk {
    var stub := Some(StubFile(cfg.haveXattr, info));
    if !preserve || d.path.None? then d.(path := stub)
    else
      var assumed := AssumedDigest(cfg, d);
      if assumed.None? || assumed.value == info.blobDigest then d
      else if Stub(cfg, d.path.value) then d.(path := stub)
      else Disk(stub, None)
  }

  // ---- the invariant of a run

  /** Stubs are genuine, and a backup beside real bytes names the digest of those bytes. */
  predicate Consistent(cfg: Config, d: Disk) {
    && (d.path.Some? && Stub(cfg, d.path.value) ==> Genuine(cfg, d.path.value))
    && (d.backup.Some? ==> Genuine(cfg, d.backup.value))
    && (d.path.Some? && !Stub(cfg, d.path.value) && d.backup.Some? ==>
          Denotes(cfg, d.backup.value) == Denotes(cfg, d.path.value))
  }

  /** The shortcut through the backup gives what hashing the file gives. */
  lemma ShortcutIsRight(cfg: Config, d: Disk)
    requires Consistent(cfg, d) && d.path.Some?
    ensures AssumedDigest(cfg, d) == Denotes(cfg, d.path.value) && AssumedDigest(cfg, d).Some?
  {
  }

  lemma {:induction false} NewStubDenotes(cfg: Config, info: StubInfo)
    requires Valid(info) && Clean(info)
    ensures Genuine(cfg, StubFile(cfg.haveXattr, info))
    ensures Denotes(cfg, StubFile(cfg.haveXattr, info)) == Some(info.blobDigest)
  {
    FilesAreToldApart(cfg.haveXattr, info, "");
  }

  /** After an update the path denotes the new digest, and an output that already did is left alone. */
  lemma {:induction false} UpdateIsRight(cfg: Config, d: Disk, info: StubInfo, preserve: bool)
    requires Valid(info) && Clean(info)
    ensures var e := AfterUpdate(cfg, d, info, preserve);
            Consistent(cfg, d) ==>
              && Consistent(cfg, e)
              && e.path.Some? && Denotes(cfg, e.path.value) == Some(info.blobDigest)
              && (preserve && d.path.Some? && Denotes(cfg, d.path.value) == Some(info.blobDigest) ==> e == d)
  {
    NewStubDenotes(cfg, info);
    if Consistent(cfg, d) && preserve && d.path.Some? {
      ShortcutIsRight(cfg, d);
      if AssumedDigest(cfg, d) == Some(info.blobDigest) {
        assert AfterUpdate(cfg, d, info, preserve) == d;
      } else {
        assert AfterUpdate(cfg, d, info, preserve).path == Some(StubFile(cfg.haveXattr, info));
      }
    }
  }

  // ---- runs

  datatype Op =
    | Create(info: StubInfo)
    | Download(fetched: Option<string>)
    | Interrupted
    | Undownload
    | UpdateStub(info: StubInfo, preserve: bool)

  function Apply(cfg: Config, d: Disk, op: Op): Disk {
    match op
    case Create(info) => AfterCreate(cfg, d, info)
    case Download(fetched) => AfterDownload(cfg, d, fetched)
    case Interrupted => AfterInterrupted(cfg, d)
    case Undownload => AfterUndownload(cfg, d)
    case UpdateStub(info, preserve) => AfterUpdate(cfg, d, info, preserve)
  }

  /** New stubs fit on lines; what is fetched for a stub has the digest it names and is no lookalike. */
  predicate Honest(cfg: Config, d: Disk, op: Op) {
    match op
    case Create(info) => Valid(info) && Clean(info)
    case UpdateStub(info, _) => Valid(info) && Clean(info)
    case Undownload => true
    case Interrupted => true
    case Download(fetched) =>
      d.path.Some? && Stub(cfg, d.path.value) && fetched.Some? ==>
        Denotes(cfg, d.path.value) == Some(Digest(cfg, fetched.value)) && Plain(cfg.haveXattr, fetched.value)
  }

  function Replay(cfg: Config, d: Disk, ops: seq<Op>): Disk {
    if ops == [] then d
    else Apply(cfg, Replay(cfg, d, ops[..|ops| - 1]), ops[|ops| - 1])
  }

  predicate HonestRun(cfg: Config, d: Disk, ops: seq<Op>) {
    ops != [] ==>
      var init := ops[..|ops| - 1];
      HonestRun(cfg, d, init) && Honest(cfg, Replay(cfg, d, init), ops[|ops| - 1])
  }

  lemma {:induction false} StepKeepsConsistent(cfg: Config, d: Disk, op: Op)
    requires Consistent(cfg, d) && Honest(cfg, d, op)
    ensures Consistent(cfg, Apply(cfg, d, op))
  {
    match op
    case Create(info) => NewStubDenotes(cfg, info);
    case UpdateStub(info, preserve) => UpdateIsRight(cfg, d, info, preserve);
    case Undownload =>
    case Interrupted =>
    case Download(fetched) =>
  }

  lemma {:induction false} RunKeepsConsistent(cfg: Config, d: Disk, ops: seq<Op>)
    requires Consistent(cfg, d) && HonestRun(cfg, d, ops)
    ensures Consistent(cfg, Replay(cfg, d, ops))
  {
    if ops != [] {
      var n := |ops| - 1;
      RunKeepsConsistent(cfg, d, ops[..n]);
      StepKeepsConsistent(cfg, Replay(cfg, d, ops[..n]), ops[n]);
    }
  }

  /** After every run, an update leaves the path denoting exactly the new digest; the shortcut through the
      backup decides like the hash would; and an output that already denotes the digest stays as it is. */
  lemma {:induction false} UpdateAfterAnyRun(cfg: Config, d: Disk, ops: seq<Op>, info: StubInfo, preserve: bool)
    requires Consistent(cfg, d) && HonestRun(cfg, d, ops)
    requires Valid(info) && Clean(info)
    ensures var before := Replay(cfg, d, ops);
            var after := AfterUpdate(cfg, before, info, preserve);
            && after.path.Some? && Denotes(cfg, after.path.value) == Some(info.blobDigest)
            && (before.path.Some? ==> AssumedDigest(cfg, before) == Denotes(cfg, before.path.value))
            && (preserve && before.path.Some? && Denotes(cfg, before.path.value) == Some(info.blobDigest) ==>
                  after == before)
  {
    RunKeepsConsistent(cfg, d, ops);
    var before := Replay(cfg, d, ops);
    UpdateIsRight(cfg, before, info, preserve);
    if before.path.Some? { ShortcutIsRight(cfg, before); }
  }

  /** Undownloading undoes a download, and repairs an output lost between its two renames. */
  lemma UndownloadRestores(cfg: Config, d: Disk, fetched: Option<string>)
    requires Consistent(cfg, d)
    ensures AfterDownload(cfg, d, fetched) != d ==>
              AfterUndownload(cfg, AfterDownload(cfg, d, fetched)).path == d.path
    ensures AfterInterrupted(cfg, d) != d ==>
              AfterUndownload(cfg, AfterInterrupted(cfg, d)) == Disk(d.path, None)
    ensures d.path.None? && d.backup.Some? ==> AfterUndownload(cfg, d) == Disk(d.backup, None)
  {
  }

  /** Where bytes come from elsewhere, beside a stub's backup: a preserving update is right exactly when the
      backup does not name the wanted digest, or the bytes have it. */
  lemma {:induction false} UpdateOverForeignBytes(cfg: Config, d: Disk, info: StubInfo)
    requires Valid(info) && Clean(info)
    requires d.path.Some? && !Stub(cfg, d.path.value)
    requires d.backup.Some? && Genuine(cfg, d.backup.value)
    ensures var e := AfterUpdate(cfg, d, info, true);
            e.path.Some? && (Denotes(cfg, e.path.value) == Some(info.blobDigest) <==>
                             Denotes(cfg, d.backup.value) != Some(info.blobDigest) ||
                             Digest(cfg, d.path.value.text) == info.blobDigest)
  {
    NewStubDenotes(cfg, info);
  }
}
